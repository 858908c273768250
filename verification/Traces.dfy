/** What `parse_oops` reports of a crash log, told by the log's characters. */
module Traces {
  import opened Wrappers
  import opened Text
  import Printk
  import opened Signature
  import opened Oops
  import opened Sections
  import Transparency
  import Exceptions
  import Noise
  import Logs

  predicate Marks(line: string) {
    || Contains(line, "Oops") || Contains(line, "kernel BUG at") || Contains(line, "Internal error:")
    || Contains(line, "Unable to handle kernel") || Contains(line, "Unhandled fault")
    || Contains(line, "BUG:") || Contains(line, "WARNING:")
  }

  predicate Opens(line: string) { StartsWith(line, "Call trace:") || StartsWith(line, "Call Trace:") }

  predicate Ends(line: string) { line == "" || Contains(line, "---[ end trace") || !Contains(line, "+0x") }

  /** A trace line: question marks, symbol and offset, the module in brackets or none, and marks behind it. */
  datatype Row = Row(doubts: nat, sym: string, off: string, modName: Option<string>, closing: nat, marks: seq<char>)

  function Doubts(n: nat): string { if n == 0 then "" else "? " + Doubts(n - 1) }

  function Closing(n: nat): string { if n == 0 then "" else Closing(n - 1) + "]" }

  function Marked(body: string, marks: seq<char>): string {
    if marks == [] then body else Marked(body, marks[..|marks| - 1]) + " (" + [marks[|marks| - 1]] + ")"
  }

  function Place(r: Row): string { r.sym + "+0x" + r.off }

  function Brackets(r: Row): string { if r.modName.Some? then " [" + r.modName.value + Closing(r.closing) else "" }

  function RowText(r: Row): string { Doubts(r.doubts) + Marked(Place(r) + Brackets(r), r.marks) }

  predicate PlainChar(c: char) { !IsSpace(c) && c != '[' && c != ')' }

  predicate RowOk(r: Row) {
    && r.sym != "" && (forall i :: 0 <= i < |r.sym| ==> PlainChar(r.sym[i]))
    && (forall i :: 0 <= i < |r.off| ==> PlainChar(r.off[i]))
    && (r.modName.Some? ==> r.closing > 0 && (r.modName.value != "" ==> r.modName.value[|r.modName.value| - 1] != ']'))
    && (forall i :: 0 <= i < |r.marks| ==> r.marks[i] == 'P' || r.marks[i] == 'K')
    && !Contains(RowText(r), "---[ end trace") && !Marks(RowText(r))
  }

  // ----- the code's own tests say the same -----

  lemma MarksIsMarker(line: string)
    ensures Marks(line) <==> IsMarker(line)
  {
    hide Contains;
    assert |MARKERS| == 7;
    assert MARKERS[0] == "Oops" && MARKERS[1] == "kernel BUG at" && MARKERS[2] == "Internal error:";
    assert MARKERS[3] == "Unable to handle kernel" && MARKERS[4] == "Unhandled fault";
    assert MARKERS[5] == "BUG:" && MARKERS[6] == "WARNING:";
  }

  lemma OpensIsHeader(line: string)
    ensures Opens(line) <==> IsHeader(line)
  {
  }

  lemma EndsNoFrame(line: string)
    requires Ends(line)
    ensures TraceLine(line) == None
  {
    hide Contains, Body;
    if !Contains(line, "+0x") {
      Logs.NoFrame(line);
    }
  }

  // ----- a trace line -----

  lemma PlaceChars(r: Row)
    requires RowOk(r)
    ensures var p := Place(r); |p| >= 4 && (forall i :: 0 <= i < |p| ==> PlainChar(p[i])) && p[|r.sym|] == '+'
    ensures OccursAt(Place(r), OFFSET, |r.sym|)
  {
    hide IsSpace, Marks, Contains;
    assert PlainChar('+') && PlainChar('0') && PlainChar('x') by { OffsetPlain(); }
    var p := Place(r);
    assert p[|r.sym|..|r.sym| + 3] == OFFSET;
    forall i | 0 <= i < |p| ensures PlainChar(p[i]) {
      assert p[i] == if i < |r.sym| then r.sym[i] else if i < |r.sym| + 3 then "+0x"[i - |r.sym|] else r.off[i - |r.sym| - 3];
    }
  }

  lemma OffsetPlain()
    ensures PlainChar('+') && PlainChar('0') && PlainChar('x')
  {
  }

  /** The body of the line, without question marks and marks. */
  function Frameless(r: Row): string { Place(r) + Brackets(r) }

  lemma FramelessEnds(r: Row)
    requires RowOk(r)
    ensures var b := Frameless(r);
      && b != "" && !IsSpace(b[0]) && !IsSpace(b[|b| - 1]) && b[|b| - 1] != ')' && |b| > 1 && b[1] != ' '
  {
    hide Marks, Contains, IsSpace;
    PlaceChars(r);
    var p, b := Place(r), Frameless(r);
    assert b[0] == p[0] && b[1] == p[1];
    Spaces();
    assert PlainChar(p[0]) && PlainChar(p[1]) && PlainChar(p[|p| - 1]);
    if r.modName.Some? {
      assert b[|b| - 1] == ']';
    } else {
      assert b == p;
    }
  }

  lemma Spaces()
    ensures IsSpace(' ') && !IsSpace(']') && !IsSpace(')') && !IsSpace('P') && !IsSpace('K')
  {
  }

  lemma DropOnce(t: string)
    requires !StartsWith(t, "? ")
    ensures DropQuestion(t) == t
  {
  }

  lemma {:induction false} Undoubted(n: nat, t: string)
    requires !StartsWith(t, "? ")
    ensures DropQuestion(Doubts(n) + t) == t && (StartsWith(Doubts(n) + t, "? ") <==> n > 0)
  {
    hide DropQuestion, StartsWith;
    if n == 0 {
      assert Doubts(n) + t == t;
      DropOnce(t);
    } else {
      Undoubted(n - 1, t);
      assert Doubts(n) + t == "? " + (Doubts(n - 1) + t);
      Questions(Doubts(n - 1) + t);
    }
  }

  lemma Questions(t: string)
    ensures StartsWith("? " + t, "? ") && DropQuestion("? " + t) == DropQuestion(t)
  {
    assert ("? " + t)[2..] == t;
  }

  lemma {:induction false} MarkedStart(body: string, marks: seq<char>)
    ensures body <= Marked(body, marks)
  {
    if marks != [] {
      MarkedStart(body, marks[..|marks| - 1]);
    }
  }

  lemma WithoutQuestion(r: Row)
    requires RowOk(r)
    ensures DropQuestion(RowText(r)) == Marked(Frameless(r), r.marks)
    ensures StartsWith(RowText(r), "? ") <==> r.doubts > 0
  {
    hide RowOk, IsSpace, DropQuestion, Place, Brackets;
    FramelessEnds(r);
    var t := Marked(Frameless(r), r.marks);
    MarkedStart(Frameless(r), r.marks);
    assert t[1] == Frameless(r)[1];
    Undoubted(r.doubts, t);
  }

  lemma Trimmed(s: string)
    requires s != "" && !IsSpace(s[0]) && !IsSpace(s[|s| - 1])
    ensures Trim(s) == s
  {
    hide IsSpace, TrimStart, TrimEnd;
    TrimStartIs("", s);
    TrimEndIs(s, "");
    assert "" + s == s && s + "" == s;
  }

  lemma PeelStep(x: string, rest: string, mark: string)
    requires EndsWith(x, ")") && RSplitOnce(x, " (") == Some((rest, mark)) && ByteLen(mark) <= 3
    ensures Peel(x) == Peel(TrimEnd(rest))
  {
    hide RSplitOnce, ByteLen, TrimEnd;
  }

  predicate Solid(b: string) { b != "" && !IsSpace(b[0]) && !IsSpace(b[|b| - 1]) && b[|b| - 1] != ')' }

  lemma OneMark(b: string, c: char)
    requires b != "" && !IsSpace(b[|b| - 1]) && (c == 'P' || c == 'K')
    ensures Peel(b + " (" + [c] + ")") == Peel(b)
  {
    hide IsSpace, RFind, TrimEnd, ByteLen, Peel;
    var x := b + " (" + [c] + ")";
    LastParen(b, [c]);
    assert x[|b| + 2..] == [c] + ")" && x[..|b|] == b;
    ShortMark([c]);
    TrimEndIs(b, "");
    assert b + "" == b;
    assert EndsWith(x, ")") by { assert x[|x| - 1..] == ")"; }
    PeelStep(x, b, [c] + ")");
  }

  lemma {:induction false} MarksPeeled(b: string, marks: seq<char>)
    requires Solid(b) && forall i :: 0 <= i < |marks| ==> marks[i] == 'P' || marks[i] == 'K'
    ensures Peel(Marked(b, marks)) == b
    ensures var x := Marked(b, marks); x != "" && !IsSpace(x[0]) && !IsSpace(x[|x| - 1])
  {
    hide IsSpace, Peel;
    if marks == [] {
      Unmarked(b);
    } else {
      var init, c := marks[..|marks| - 1], marks[|marks| - 1];
      MarksPeeled(b, init);
      OneMark(Marked(b, init), c);
      Spaces();
      var x := Marked(b, marks);
      assert x[|x| - 1] == ')' && x[0] == Marked(b, init)[0];
    }
  }

  lemma Unmarked(b: string)
    requires b != "" && b[|b| - 1] != ')'
    ensures Peel(b) == b
  {
    hide RSplitOnce, TrimEnd, ByteLen;
  }

  lemma LastParen(h: string, c: string)
    requires c == "P" || c == "K"
    ensures RFind(h + " (" + c + ")", " (") == Some(|h|)
  {
    var x := h + " (" + c + ")";
    assert OccursAt(x, " (", |h|) by { assert x[|h|..|h| + 2] == " ("; }
    var r := RFind(x, " (");
    assert x[|h| + 1] == '(' && x[|h| + 2] == c[0] && x[|h| + 3] == ')';
    if r.Some? {
      OccursChar(x, " (", r.value, 0);
    }
  }

  lemma ShortMark(c: string)
    requires c == "P" || c == "K"
    ensures ByteLen(c + ")") == 2
  {
    assert (c + ")")[1..] == ")" && ")"[1..] == "";
  }

  lemma NoBlank(r: Row)
    requires RowOk(r)
    ensures ' ' !in Place(r)
  {
    hide Marks, Contains, IsSpace;
    PlaceChars(r);
    Spaces();
  }

  lemma FramelessSplit(r: Row)
    requires RowOk(r)
    ensures SymbolPart(Frameless(r)) == Place(r) && ModulePart(Frameless(r)) == r.modName
  {
    hide Marks, Contains, PlainChar, Place, SplitOnce, DropClosing, Closing;
    NoBlank(r);
    var p, b := Place(r), Frameless(r);
    if r.modName.Some? {
      var rest := r.modName.value + Closing(r.closing);
      assert b == p + " [" + rest;
      SplitAt(p, rest);
      Closed(r.modName.value, r.closing);
    } else {
      assert b == p;
      NoSplit(p);
    }
  }

  lemma SplitAt(p: string, rest: string)
    requires ' ' !in p
    ensures SplitOnce(p + " [" + rest, " [") == Some((p, rest))
  {
    var x := p + " [" + rest;
    assert OccursAt(x, " [", |p|) by { assert x[|p|..|p| + 2] == " ["; }
    forall j | 0 <= j < |p| ensures !OccursAt(x, " [", j) {
      if OccursAt(x, " [", j) {
        OccursChar(x, " [", j, 0);
      }
      assert x[j] == p[j];
    }
    assert x[|p| + 2..] == rest && x[..|p|] == p;
  }

  lemma NoSplit(p: string)
    requires ' ' !in p
    ensures SplitOnce(p, " [") == None
  {
    if Find(p, " [").Some? {
      OccursChar(p, " [", Find(p, " [").value, 0);
    }
  }

  lemma {:induction false} Closed(m: string, n: nat)
    requires m != "" ==> m[|m| - 1] != ']'
    ensures DropClosing(m + Closing(n)) == m
  {
    if n == 0 {
      assert m + Closing(n) == m;
    } else {
      var x := m + Closing(n);
      assert x == m + Closing(n - 1) + "]";
      assert x[..|x| - 1] == m + Closing(n - 1) && EndsWith(x, "]");
      Closed(m, n - 1);
    }
  }

  function FrameOf(r: Row): Frame { Frame(r.sym + "+0x" + r.off, r.modName, r.doubts > 0) }

  lemma RowRead(r: Row)
    requires RowOk(r)
    ensures TraceLine(RowText(r)) == Some(FrameOf(r))
  {
    hide Contains, IsSpace, Trim, DropQuestion, Peel, SymbolPart, ModulePart, Frameless, PlainChar, StartsWith, Marked, RowOk;
    var t := RowText(r);
    var b := Frameless(r);
    WithoutQuestion(r);
    FramelessEnds(r);
    MarksArePK(r);
    MarksPeeled(b, r.marks);
    Trimmed(Marked(b, r.marks));
    assert Body(t) == b;
    FramelessSplit(r);
    PlaceChars(r);
    Logs.OffsetIsThere(Place(r), |r.sym|);
    NotEmpty(r);
  }

  lemma MarksArePK(r: Row)
    requires RowOk(r)
    ensures forall i :: 0 <= i < |r.marks| ==> r.marks[i] == 'P' || r.marks[i] == 'K'
  {
    hide Contains, Marks, PlainChar;
  }

  lemma NotEmpty(r: Row)
    requires RowOk(r)
    ensures !EndsTrace(RowText(r))
  {
    hide Contains, Marks, IsSpace, PlainChar;
    MarkedStart(Frameless(r), r.marks);
  }

  lemma HeaderChars(t: string)
    ensures Opens(t) ==> |t| > 4 && t[0] == 'C' && t[1] == 'a' && t[2] == 'l' && t[3] == 'l' && t[4] == ' '
  {
  }

  lemma RowStart(r: Row)
    requires RowOk(r)
    ensures if r.doubts > 0 then RowText(r) != "" && RowText(r)[0] == '?' else Place(r) <= RowText(r)
  {
    hide RowOk, Place;
    MarkedStart(Frameless(r), r.marks);
    var t := Marked(Frameless(r), r.marks);
    if r.doubts == 0 {
      assert Doubts(0) + t == t;
    } else {
      assert Doubts(r.doubts)[0] == '?';
    }
  }

  /** A trace line is no header: it has an offset before its first blank. */
  lemma RowIsNoHeader(r: Row)
    requires RowOk(r)
    ensures !Opens(RowText(r))
  {
    hide RowOk, RowText, Opens, Place, PlainChar;
    RowStart(r);
    NoBlank(r);
    PlaceChars(r);
    SymbolThere(r);
    HeaderChars(RowText(r));
    var p := Place(r);
    assert |r.sym| > 4 ==> p[4] != ' ';
    assert |r.sym| <= 4 ==> p[|r.sym|] == '+';
  }

  lemma SymbolThere(r: Row)
    requires RowOk(r)
    ensures r.sym != "" && |r.sym| < |Place(r)|
  {
    hide Contains, Marks, PlainChar;
  }

  // ----- a log -----

  /** A log with one crash: other lines, the exception line, more lines, the header of the trace, the trace,
      and what follows. */
  datatype Log = Log(before: seq<string>, exception: string, between: seq<string>, header: string, rows: seq<Row>, behind: seq<string>)

  function RowTexts(rows: seq<Row>): seq<string> { seq(|rows|, i requires 0 <= i < |rows| => RowText(rows[i])) }

  function Messages(l: Log): seq<string> {
    l.before + [l.exception] + l.between + [l.header] + RowTexts(l.rows) + l.behind
  }

  ghost predicate LogOk(l: Log) {
    && (forall i :: 0 <= i < |l.before| ==> !Marks(l.before[i]) && !Opens(l.before[i]))
    && Marks(l.exception) && !Opens(l.exception)
    && (forall i :: 0 <= i < |l.between| ==> !Opens(l.between[i]))
    && Opens(l.header)
    && (forall i :: 0 <= i < |l.rows| ==> RowOk(l.rows[i]))
    && (forall i :: 0 <= i < |l.behind| ==> !Marks(l.behind[i]) && !Opens(l.behind[i]))
    && (l.behind != [] ==> Ends(l.behind[0]))
  }

  function Frames(rows: seq<Row>): seq<Frame> { seq(|rows|, i requires 0 <= i < |rows| => FrameOf(rows[i])) }

  lemma {:induction false} Before(rs: seq<Reading>, n: nat)
    requires n <= |rs| && forall i :: 0 <= i < n ==> !rs[i].marker && !rs[i].header
    ensures RunTo(rs, n) == INIT
  {
    if n > 0 {
      Before(rs, n - 1);
    }
  }

  /** Lines without a header change nothing while there is an exception line and no frame. */
  lemma {:induction false} Between(rs: seq<Reading>, lo: nat, n: nat, e: string)
    requires lo <= n <= |rs| && RunTo(rs, lo) == Parse(Some(e), [], false)
    requires forall i :: lo <= i < n ==> !rs[i].header
    ensures RunTo(rs, n) == Parse(Some(e), [], false)
  {
    if lo < n {
      Between(rs, lo, n - 1, e);
    }
  }

  lemma {:induction false} Trace(rs: seq<Reading>, lo: nat, n: nat, e: string, fs: seq<Frame>)
    requires lo <= n <= |rs| && n - lo <= |fs| && RunTo(rs, lo) == Parse(Some(e), [], true)
    requires forall i :: lo <= i < n ==> !rs[i].marker && !rs[i].header && rs[i].frame == Some(fs[i - lo])
    ensures RunTo(rs, n) == Parse(Some(e), fs[..n - lo], true)
  {
    if lo < n {
      Trace(rs, lo, n - 1, e, fs);
      assert fs[..n - lo] == fs[..n - 1 - lo] + [fs[n - 1 - lo]];
    }
  }

  lemma {:induction false} Behind(rs: seq<Reading>, lo: nat, n: nat, e: string, fs: seq<Frame>)
    requires lo <= n <= |rs| && RunTo(rs, lo) == Parse(Some(e), fs, true)
    requires forall i :: lo <= i < n ==> !rs[i].marker && !rs[i].header
    requires lo < n ==> rs[lo].frame == None
    ensures RunTo(rs, n) == Parse(Some(e), fs, n == lo)
  {
    if lo < n {
      Behind(rs, lo, n - 1, e, fs);
    }
  }

  /** The readings of the log's lines, part by part. */
  ghost predicate ReadsAs(rs: seq<Reading>, l: Log) {
    && |rs| == |Messages(l)|
    && forall i :: 0 <= i < |rs| ==> rs[i] == ReadText(Messages(l)[i])
  }

  lemma Parts(l: Log)
    ensures var ms := Messages(l); var b := |l.before|; var h := b + 1 + |l.between|; var t := h + 1 + |l.rows|;
      && |ms| == t + |l.behind|
      && (forall i :: 0 <= i < b ==> ms[i] == l.before[i]) && ms[b] == l.exception
      && (forall i :: b < i < h ==> ms[i] == l.between[i - b - 1]) && ms[h] == l.header
      && (forall i :: h < i < t ==> ms[i] == RowText(l.rows[i - h - 1]))
      && (forall i :: t <= i < |ms| ==> ms[i] == l.behind[i - t])
  {
    hide RowText;
  }

  lemma Kinds(line: string)
    ensures var r := ReadText(line); r.text == line && (r.marker <==> Marks(line)) && (r.header <==> Opens(line))
    ensures Ends(line) ==> ReadText(line).frame == None
  {
    hide IsMarker, IsHeader, TraceLine, Marks, Opens, Ends;
    MarksIsMarker(line);
    OpensIsHeader(line);
    if Ends(line) { EndsNoFrame(line); }
  }

  lemma RowReading(r: Row)
    requires RowOk(r)
    ensures var q := ReadText(RowText(r)); !q.marker && !q.header && q.frame == Some(FrameOf(r))
  {
    hide IsMarker, IsHeader, TraceLine, Marks, Opens, RowText;
    Kinds(RowText(r));
    RowIsNoHeader(r);
    RowRead(r);
    NoMarks(r);
  }

  lemma NoMarks(r: Row)
    requires RowOk(r)
    ensures !Marks(RowText(r))
  {
    hide Marks, Contains, RowText;
  }

  lemma LogResult(rs: seq<Reading>, l: Log)
    requires LogOk(l) && ReadsAs(rs, l)
    ensures Result(rs) == Some((l.exception, Frames(l.rows)))
  {
    hide RunTo, ReadText, Marks, Opens, Ends, RowOk, RowText, FrameOf, Messages;
    Parts(l);
    var b := |l.before|; var h := b + 1 + |l.between|; var t := h + 1 + |l.rows|;
    var ms := Messages(l);
    forall i | 0 <= i < |rs|
      ensures rs[i].text == ms[i] && (rs[i].marker <==> Marks(ms[i])) && (rs[i].header <==> Opens(ms[i]))
      ensures Ends(ms[i]) ==> rs[i].frame == None
    {
      Kinds(ms[i]);
    }
    forall i | h < i < t ensures !rs[i].marker && !rs[i].header && rs[i].frame == Some(FrameOf(l.rows[i - h - 1])) {
      RowReading(l.rows[i - h - 1]);
    }
    Before(rs, b);
    Stepped(rs, b);
    Between(rs, b + 1, h, l.exception);
    Stepped(rs, h);
    Trace(rs, h + 1, t, l.exception, Frames(l.rows));
    assert Frames(l.rows)[..t - h - 1] == Frames(l.rows);
    Behind(rs, t, |rs|, l.exception, Frames(l.rows));
  }

  lemma Stepped(rs: seq<Reading>, n: nat)
    requires n < |rs|
    ensures RunTo(rs, n + 1) == Step(RunTo(rs, n), rs[n])
  {
  }

  /** The log as a text: any valid prefixes, and any blanks around the messages. */
  lemma LogReported(ps: seq<Printk.Prefix>, ms: seq<string>, l: Log)
    requires ValidLog(ps, ms) && LogOk(l) && |ms| == |Messages(l)|
    requires forall i :: 0 <= i < |ms| ==> Trim(ms[i]) == Messages(l)[i]
    ensures Parsed(Unlines(Logged(ps, ms))) == Some((l.exception, Frames(l.rows)))
  {
    hide Readings, Unlines, Logged, Result, ReadText, LogOk, Messages, Trim, Frames;
    LoggedReadings(ps, ms);
    LogResult(Readings(Unlines(Logged(ps, ms))), l);
  }

  // ----- no header, no marker -----

  lemma {:induction false} NoHeader(rs: seq<Reading>, n: nat)
    requires n <= |rs| && forall i :: 0 <= i < n ==> !rs[i].header
    ensures RunTo(rs, n).frames == [] && !RunTo(rs, n).inTrace
  {
    if n > 0 {
      NoHeader(rs, n - 1);
    }
  }

  /** A text with neither header at the start of a stripped line has no frames. */
  lemma NoHeaderNoFrames(text: string)
    requires forall i :: 0 <= i < |Lines(text)| ==> !Opens(Printk.Strip(Lines(text)[i]))
    ensures Parsed(text).Some? ==> Parsed(text).value.1 == []
  {
    hide Lines, Printk.Strip, Opens, ReadText, RunTo;
    var rs := Readings(text);
    forall i | 0 <= i < |rs| ensures !rs[i].header {
      Kinds(Printk.Strip(Lines(text)[i]));
    }
    NoHeader(rs, |rs|);
    assert Parsed(text) == Result(rs);
  }

  lemma {:induction false} MarkerFound(rs: seq<Reading>, n: nat)
    requires n <= |rs|
    ensures RunTo(rs, n).exception.Some? <==> exists i :: 0 <= i < n && rs[i].marker
  {
    if n > 0 {
      MarkerFound(rs, n - 1);
    }
  }

  /** A crash is reported exactly if a stripped line has one of the seven markers in it. */
  lemma ReportedIff(text: string)
    ensures Parsed(text).Some? <==> exists i :: 0 <= i < |Lines(text)| && Marks(Printk.Strip(Lines(text)[i]))
  {
    hide Lines, Printk.Strip, Marks, ReadText, RunTo;
    var rs := Readings(text);
    forall i | 0 <= i < |rs| ensures rs[i].marker <==> Marks(Printk.Strip(Lines(text)[i])) {
      Kinds(Printk.Strip(Lines(text)[i]));
    }
    MarkerFound(rs, |rs|);
    if i :| 0 <= i < |rs| && rs[i].marker {
      assert Marks(Printk.Strip(Lines(text)[i]));
    }
    if i :| 0 <= i < |Lines(text)| && Marks(Printk.Strip(Lines(text)[i])) {
      assert rs[i].marker;
    }
  }

  lemma UnclassifiedWord()
    ensures Noise.Word("unclassified", "", "unclassified", "") && !Noise.Address("unclassified") && !Noise.Counter("unclassified")
    ensures !Noise.Label("unclassified")
  {
    assert NoSpace("unclassified") && '.' !in "unclassified";
  }

  lemma UnclassifiedStays()
    ensures Exceptions.Normal("unclassified") == "unclassified"
  {
    hide Exceptions.Normal, Words, Noise.Word, Noise.Address, Noise.Counter, Noise.Label;
    UnclassifiedWord();
    WordsOfSpace("");
    Nothing();
    assert "" + "unclassified" == "unclassified";
    Noise.WordKept("", "unclassified", "", "", "unclassified", "");
  }

  lemma Nothing()
    ensures Exceptions.Normal("") == ""
  {
    WordsOfSpace("");
    WordsOfTrim("");
    hide Words, Trim;
  }

  /** Texts without a marker are grouped together, one group for each kind. */
  lemma Unclassified(kind: string, text: string)
    requires forall i :: 0 <= i < |Lines(text)| ==> !Marks(Printk.Strip(Lines(text)[i]))
    ensures Transparency.Classified(kind, text) == CrashSignature(kind + "|unclassified|", "unclassified", [])
  {
    hide Lines, Printk.Strip, Marks, Parsed, Exceptions.Normal;
    ReportedIff(text);
    UnclassifiedStays();
    NoFrames();
    assert kind + "|" + "unclassified" + "|" + "" == kind + "|unclassified|";
  }

  lemma NoFrames()
    ensures KeyFrames([]) == [] && Distinct(Modules([])) == []
  {
  }
}
