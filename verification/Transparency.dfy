/** Lines and logs that the parser treats alike, and what a location behind a line changes. */
module Transparency {
  import opened Wrappers
  import opened Text
  import Printk
  import Symbols
  import Exceptions
  import opened Signature
  import opened Oops
  import opened Sections
  import ExceptionTail
  import opened Annotate

  /** The signature that the decoder gives what it parsed. */
  function SignatureOf(kind: string, parsed: Option<(string, seq<Frame>)>): CrashSignature {
    match parsed
    case Some((exception, frames)) => Of(kind, exception, frames)
    case None => Of(kind, "unclassified", [])
  }

  function Classified(kind: string, text: string): CrashSignature { SignatureOf(kind, Parsed(text)) }

  /** A location that reads as nothing else: one line, no crash marker, no end of trace. */
  ghost predicate Neutral(loc: string) {
    && OneLine(loc) && !Contains(loc, END_TRACE)
    && forall k :: 0 <= k < |MARKERS| ==> !Contains(loc, MARKERS[k])
  }

  function Tail(ws: string, loc: string): string { ws + " (" + loc + ")" }

  // ----- patterns and the appended location -----

  predicate Printable(c: char) { ' ' <= c <= '~' }

  /** A pattern of printable characters that cannot reach across the appended " (". */
  ghost predicate Solid(p: string) {
    && p != "" && p[0] != ' ' && p[0] != '(' && p[|p| - 1] != ' '
    && (forall k :: 0 <= k < |p| ==> Printable(p[k]) && p[k] != ')')
    && forall k :: 0 <= k < |p| - 1 && p[k] == ' ' ==> p[k + 1] != ' ' && p[k + 1] != '('
  }

  lemma PrintableSpace(c: char)
    requires Printable(c) && IsSpace(c)
    ensures c == ' '
  {
  }

  lemma ShortMarkersSolid()
    ensures Solid("Oops") && Solid("BUG:") && Solid("WARNING:")
  {
  }

  lemma ErrorMarkersSolid()
    ensures Solid("Internal error:") && Solid("Unhandled fault")
  {
  }

  lemma BugMarkerSolid()
    ensures Solid("kernel BUG at")
  {
  }

  lemma UnableMarkerSolid()
    ensures Solid("Unable to handle kernel")
  {
  }

  lemma EndTraceSolid()
    ensures Solid(END_TRACE)
  {
  }

  lemma MarkersSolid()
    ensures forall k :: 0 <= k < |MARKERS| ==> Solid(MARKERS[k])
  {
    ShortMarkersSolid();
    ErrorMarkersSolid();
    BugMarkerSolid();
    UnableMarkerSolid();
    hide Solid;
  }

  lemma TailStarts(ws: string, loc: string)
    requires AllSpace(ws)
    ensures var t := Tail(ws, loc); |t| == |ws| + |loc| + 3 && IsSpace(t[0]) && (IsSpace(t[1]) || t[1] == '(')
    ensures forall i :: 0 <= i <= |ws| ==> IsSpace(Tail(ws, loc)[i])
    ensures Tail(ws, loc)[|ws| + 1] == '(' && Tail(ws, loc)[|ws| + |loc| + 2] == ')'
  {
    var t := Tail(ws, loc);
    forall i | 0 <= i <= |ws| ensures IsSpace(t[i]) {
      assert t[i] == if i < |ws| then ws[i] else ' ';
    }
  }

  lemma NoCrossing(m: string, ws: string, loc: string, p: string, i: nat)
    requires AllSpace(ws) && Solid(p) && OccursAt(m + Tail(ws, loc), p, i)
    ensures i + |p| <= |m| || |m| <= i
  {
    hide IsSpace, Tail;
    TailStarts(ws, loc);
    var t := Tail(ws, loc);
    var s := m + t;
    if i < |m| < i + |p| {
      var k := |m| - i;
      assert s[|m|] == t[0] && s[|m| + 1] == t[1];
      OccursChar(s, p, i, k);
      PrintableSpace(p[k]);
      if k + 1 < |p| {
        OccursChar(s, p, i, k + 1);
        if p[k + 1] != '(' {
          PrintableSpace(p[k + 1]);
        }
      }
    }
  }

  lemma InsideLocation(ws: string, loc: string, p: string, j: nat)
    requires AllSpace(ws) && Solid(p) && OccursAt(Tail(ws, loc), p, j)
    ensures j >= |ws| + 2 && OccursAt(loc, p, j - |ws| - 2)
  {
    hide IsSpace;
    TailStarts(ws, loc);
    var t := Tail(ws, loc);
    OccursChar(t, p, j, 0);
    if j <= |ws| {
      PrintableSpace(p[0]);
    }
    assert j >= |ws| + 2;
    OccursChar(t, p, j, |p| - 1);
    assert j + |p| <= |ws| + 2 + |loc|;
    var h := ws + " (";
    assert t == h + (loc + ")");
    OccursInPart(h, loc + ")", p, j);
    OccursInPart(loc, ")", p, j - |h|);
  }

  /** The location adds a solid pattern to a line only if it contains it. */
  lemma SolidTail(m: string, ws: string, loc: string, p: string)
    requires AllSpace(ws) && Solid(p) && !Contains(loc, p)
    ensures Contains(m + Tail(ws, loc), p) <==> Contains(m, p)
  {
    hide Tail, Solid, IsSpace;
    var t := Tail(ws, loc);
    if Contains(m, p) {
      FindTail(m, p, t);
    }
    if Contains(m + t, p) {
      var i := Find(m + t, p).value;
      NoCrossing(m, ws, loc, p, i);
      OccursInPart(m, t, p, i);
      if |m| <= i {
        InsideLocation(ws, loc, p, i - |m|);
      }
    }
  }

  /** Nor does anything behind a '+' change how the line starts. */
  lemma PrefixTail(m: string, t: string, h: string)
    requires '+' in m && '+' !in h
    ensures StartsWith(m + t, h) <==> StartsWith(m, h)
  {
    if StartsWith(m + t, h) {
      var i :| 0 <= i < |m| && m[i] == '+';
      assert (m + t)[i] == '+';
      assert forall j :: 0 <= j < |h| ==> h[j] == (m + t)[j] && h[j] != '+';
      assert h == (m + t)[..|h|] == m[..|h|];
    }
  }

  // ----- frames and the appended location -----

  /** An occurrence of "+0x" starts with '+' and ends with 'x'. */
  lemma OffsetChars(s: string, i: nat)
    requires OccursAt(s, OFFSET, i)
    ensures s[i] == '+' && s[i + 1] == '0' && s[i + 2] == 'x' && '+' in s
  {
    OccursChar(s, OFFSET, i, 0);
    OccursChar(s, OFFSET, i, 1);
    OccursChar(s, OFFSET, i, 2);
  }

  /** An offset lies wholly on one side of text it shares no character with. */
  lemma OffsetOnSide(a: string, sep: string, b: string, i: nat)
    requires OccursAt(a + sep + b, OFFSET, i) && sep != ""
    requires forall k :: 0 <= k < |sep| ==> sep[k] != '+' && sep[k] != '0' && sep[k] != 'x'
    ensures i + 3 <= |a| || |a| + |sep| <= i
  {
    var s := a + sep + b;
    OffsetChars(s, i);
    assert s[|a|] == sep[0];
    assert forall k :: 0 <= k < |sep| ==> s[|a| + k] == sep[k];
  }

  lemma TrimKeepsOffset(u: string)
    requires Contains(u, OFFSET)
    ensures Contains(Trim(u), OFFSET)
  {
    hide Trim, IsSpace, Find;
    var i := Find(u, OFFSET).value;
    var a, b := TrimParts(u);
    OffsetChars(u, i);
    SpaceSides(a, Trim(u), b, i);
    OccursInPart(a + Trim(u), b, OFFSET, i);
    OccursInPart(a, Trim(u), OFFSET, i);
  }

  lemma SpaceSides(a: string, x: string, b: string, i: nat)
    requires AllSpace(a) && AllSpace(b) && OccursAt(a + x + b, OFFSET, i)
    ensures |a| <= i && i + 3 <= |a| + |x|
  {
    assert !IsSpace('+') && !IsSpace('x');
    hide IsSpace;
    var s := a + x + b;
    OffsetChars(s, i);
    forall k | 0 <= k < |s| && !(|a| <= k < |a| + |x|) ensures IsSpace(s[k]) {
      assert s[k] == if k < |a| then a[k] else b[k - |a| - |x|];
    }
  }

  /** The marks that are peeled off a frame are too short to hold an offset. */
  lemma {:induction false} PeelKeeps(x: string, i: nat)
    requires OccursAt(x, OFFSET, i)
    ensures OccursAt(Peel(x), OFFSET, i)
    decreases |x|
  {
    hide RSplitOnce, TrimEnd, ByteLen;
    var split := RSplitOnce(x, " (");
    if EndsWith(x, ")") && split.Some? && ByteLen(split.value.1) <= 3 {
      var rest, mark := split.value.0, split.value.1;
      MarkIsShort(rest, mark, i);
      var r := TrimEnd(rest);
      TrimEndParts(rest);
      assert rest == "" + r + rest[|r|..];
      Assoc(rest, " (", mark);
      OccursInPart(rest, " (" + mark, OFFSET, i);
      SpaceSides("", r, rest[|r|..], i);
      assert rest == r + rest[|r|..];
      OccursInPart(r, rest[|r|..], OFFSET, i);
      PeelKeeps(r, i);
    }
  }

  lemma MarkIsShort(rest: string, mark: string, i: nat)
    requires ByteLen(mark) <= 3 && EndsWith(rest + " (" + mark, ")")
    requires OccursAt(rest + " (" + mark, OFFSET, i)
    ensures i + 3 <= |rest|
  {
    hide ByteLen;
    var x := rest + " (" + mark;
    OffsetOnSide(rest, " (", mark, i);
    assert x[|x| - 1] == ')';
    OffsetChars(x, i);
  }

  /** The symbol of a frame text is decided by what stands before its first offset: a module bracket
      there leaves no offset in the symbol, otherwise the symbol begins with that text and the offset. */
  lemma SymbolBefore(x: string, a: string)
    requires Find(x, OFFSET) == Some(|a|) && a <= x
    ensures var sym := SymbolPart(Peel(x));
      && (Contains(sym, OFFSET) <==> !Contains(a, " ["))
      && (Contains(sym, OFFSET) ==> Symbols.Normal(sym) == Symbols.Normal(a + OFFSET))
  {
    hide Peel, Symbols.Normal, Find;
    PeelKeeps(x, |a|);
    PeelPrefix(x);
    var body := Peel(x);
    assert x == body + x[|body|..];
    assert Find(body, OFFSET).Some?;
    FindTail(body, OFFSET, x[|body|..]);
    assert body[..|a|] == a;
    var b := body[|a| + 3..];
    assert body == a + OFFSET + b by { assert body[|a|..|a| + 3] == OFFSET; }
    SymbolSplit(a, b);
  }

  lemma SymbolSplit(a: string, b: string)
    requires Find(a + OFFSET + b, OFFSET) == Some(|a|)
    ensures var sym := SymbolPart(a + OFFSET + b);
      && (Contains(sym, OFFSET) <==> !Contains(a, " ["))
      && (Contains(sym, OFFSET) ==> Symbols.Normal(sym) == Symbols.Normal(a + OFFSET))
  {
    hide Symbols.Normal, Find;
    var body := a + OFFSET + b;
    var split := Find(body, " [");
    assert body == a + (OFFSET + b);
    if Contains(a, " [") {
      FindTail(a, " [", OFFSET + b);
      var q := split.value;
      assert body == body[..q] + body[q..];
      if Contains(body[..q], OFFSET) {
        FindTail(body[..q], OFFSET, body[q..]);
      }
    } else if split.Some? {
      var q := split.value;
      OccursInPart(a, OFFSET + b, " [", q);
      BracketSide(a, b, q);
      var c := body[|a| + 3..q];
      assert body[..q] == a + OFFSET + c;
      Symbols.OffsetOccurs(a, c);
      assert a + OFFSET + "" == a + OFFSET;
      Symbols.OffsetIgnored(a, c, "");
    } else {
      Symbols.OffsetOccurs(a, b);
      assert a + OFFSET + "" == a + OFFSET;
      Symbols.OffsetIgnored(a, b, "");
    }
  }

  lemma BracketSide(a: string, b: string, q: nat)
    requires OccursAt(a + OFFSET + b, " [", q)
    ensures q + 2 <= |a| || |a| + 3 <= q
  {
    var body := a + OFFSET + b;
    OccursChar(body, " [", q, 0);
    OccursChar(body, " [", q, 1);
    assert body[|a|] == '+' && body[|a| + 1] == '0' && body[|a| + 2] == 'x';
  }

  lemma {:induction false} DropQuestionTail(m: string, t: string)
    requires Contains(m, OFFSET)
    ensures DropQuestion(m + t) == DropQuestion(m) + t && Contains(DropQuestion(m), OFFSET)
  {
    hide Find;
    var i := Find(m, OFFSET).value;
    OffsetChars(m, i);
    PrefixTail(m, t, "? ");
    if StartsWith(m, "? ") {
      assert m == "? " + m[2..] && (m + t)[2..] == m[2..] + t;
      assert "" + "? " + m[2..] == m;
      OffsetOnSide("", "? ", m[2..], i);
      OccursInPart("? ", m[2..], OFFSET, i);
      DropQuestionTail(m[2..], t);
    }
  }

  /** A trace line and the same line with a location behind it carry a frame of the same name. */
  lemma FrameTail(m: string, ws: string, loc: string)
    requires Contains(m, OFFSET) && AllSpace(ws) && !Contains(loc, END_TRACE)
    ensures var m' := m + Tail(ws, loc);
      match TraceLine(m)
      case Some(f) => TraceLine(m').Some? && TraceLine(m').value.questionable == f.questionable
                      && Symbols.Normal(TraceLine(m').value.symbol) == Symbols.Normal(f.symbol)
      case None => TraceLine(m').None?
  {
    EndTraceSolid();
    hide Solid, Symbols.Normal, Peel, Trim, DropQuestion, IsSpace, Find, SymbolPart, ModulePart, Tail;
    var t := Tail(ws, loc);
    SolidTail(m, ws, loc, END_TRACE);
    var i := Find(m, OFFSET).value;
    OffsetChars(m, i);
    PrefixTail(m, t, "? ");
    DropQuestionTail(m, t);
    var u := DropQuestion(m);
    TrimKeepsOffset(u);
    var x := Trim(u);
    OffsetChars(u, Find(u, OFFSET).value);
    LastOfTail(ws, loc);
    var ws2 := Printk.TrimTail(u, t);
    var a := x[..Find(x, OFFSET).value];
    FindTail(x, OFFSET, ws2 + t);
    Assoc(x, ws2, t);
    SymbolBefore(x, a);
    SymbolBefore(x + ws2 + t, a);
  }

  lemma LastOfTail(ws: string, loc: string)
    ensures var t := Tail(ws, loc); t != "" && !IsSpace(t[|t| - 1])
  {
    var t := Tail(ws, loc);
    assert t[|t| - 1] == ')';
  }

  // ----- whole logs -----

  /** Lines that the parser treats alike, up to offsets and modules. */
  ghost predicate Alike(r: Reading, r': Reading) {
    && r.marker == r'.marker && r.header == r'.header
    && match r.frame
       case Some(f) => r'.frame.Some? && r'.frame.value.questionable == f.questionable
                       && Symbols.Normal(r'.frame.value.symbol) == Symbols.Normal(f.symbol)
       case None => r'.frame.None?
  }

  lemma MarkerTail(m: string, ws: string, loc: string)
    requires AllSpace(ws) && Neutral(loc)
    ensures IsMarker(m + Tail(ws, loc)) <==> IsMarker(m)
  {
    MarkersSolid();
    hide Solid, Contains, Tail, AllSpace;
    forall k | 0 <= k < |MARKERS| ensures Contains(m + Tail(ws, loc), MARKERS[k]) <==> Contains(m, MARKERS[k]) {
      SolidTail(m, ws, loc, MARKERS[k]);
    }
  }

  lemma AlikeTail(m: string, ws: string, loc: string)
    requires Contains(m, OFFSET) && AllSpace(ws) && Neutral(loc)
    ensures Alike(ReadText(m), ReadText(m + Tail(ws, loc)))
  {
    hide IsMarker, TraceLine, Tail, Symbols.Normal, AllSpace, Find;
    MarkerTail(m, ws, loc);
    OffsetChars(m, Find(m, OFFSET).value);
    PrefixTail(m, Tail(ws, loc), "Call trace:");
    PrefixTail(m, Tail(ws, loc), "Call Trace:");
    FrameTail(m, ws, loc);
  }

  /** Stripping commutes with annotating a line that has an offset on it. */
  lemma StripAnnotated(raw: string, loc: string) returns (ws: string)
    requires Contains(raw, OFFSET)
    ensures AllSpace(ws) && Printk.Strip(raw + " (" + loc + ")") == Printk.Strip(raw) + Tail(ws, loc)
    ensures Contains(Printk.Strip(raw), OFFSET)
  {
    hide Printk.Strip, Find, IsSpace;
    var i := Find(raw, OFFSET).value;
    OffsetChars(raw, i);
    LastOfTail("", loc);
    var t := Tail("", loc);
    assert raw + " (" + loc + ")" == raw + t by { Assoc(raw, " (", loc); Assoc(raw, " (" + loc, ")"); }
    var pre, post, w := Printk.StripTail(raw, t);
    ws := w;
    var m := Printk.Strip(raw);
    assert m + ws + t == m + Tail(ws, loc) by { TailJoin(m, ws, loc); }
    BetweenPlusAndSpace(pre, m, post, i);
    OccursInPart(pre + m, post, OFFSET, i);
    OccursInPart(pre, m, OFFSET, i);
  }

  lemma TailJoin(m: string, ws: string, loc: string)
    ensures m + ws + Tail("", loc) == m + Tail(ws, loc) && m + Tail(ws, loc) == m + ws + " (" + loc + ")"
  {
  }

  lemma BetweenPlusAndSpace(a: string, x: string, b: string, i: nat)
    requires '+' !in a && AllSpace(b) && OccursAt(a + x + b, OFFSET, i)
    ensures |a| <= i && i + 3 <= |a| + |x|
  {
    assert !IsSpace('x');
    hide IsSpace;
    var s := a + x + b;
    OffsetChars(s, i);
    assert forall k :: 0 <= k < |a| ==> s[k] == a[k];
    forall k | |a| + |x| <= k < |s| ensures IsSpace(s[k]) {
      assert s[k] == b[k - |a| - |x|];
    }
  }

  ghost predicate AllNeutral(resolve: Resolver) {
    forall s, o, m :: resolve(s, o, m).Some? ==> Neutral(resolve(s, o, m).value)
  }

  /** Two logs that read alike line by line. */
  ghost predicate SameShape(rs: seq<Reading>, rs': seq<Reading>) {
    |rs| == |rs'| && forall i :: 0 <= i < |rs| ==> Alike(rs[i], rs'[i])
  }

  // ----- the same section is selected -----

  lemma {:induction false} ShapeFrames(rs: seq<Reading>, rs': seq<Reading>, lo: nat, hi: nat)
    requires SameShape(rs, rs') && hi <= |rs|
    ensures SameNames(FramesIn(rs, lo, hi), FramesIn(rs', lo, hi)) && InTrace(rs, hi) == InTrace(rs', hi)
  {
    hide Symbols.Normal;
    if hi > 0 {
      ShapeFrames(rs, rs', lo, hi - 1);
    }
  }

  lemma ShapeSection(rs: seq<Reading>, rs': seq<Reading>, e: nat, m: nat)
    requires SameShape(rs, rs') && IsSection(rs, |rs|, e, m)
    ensures IsSection(rs', |rs|, e, m)
  {
    hide FramesIn, Symbols.Normal;
    ShapeFrames(rs, rs', e, m);
    forall j | 0 <= j < e && rs'[j].marker ensures FramesIn(rs', j, e) != [] {
      ShapeFrames(rs, rs', j, e);
    }
  }

  /** Both logs report the section that starts on the same line, with frames of the same names. */
  lemma SameSelection(rs: seq<Reading>, rs': seq<Reading>) returns (e: nat, m: nat)
    requires SameShape(rs, rs')
    ensures match Result(rs)
            case Some((exception, frames)) =>
              && IsSection(rs, |rs|, e, m) && IsSection(rs', |rs'|, e, m)
              && exception == rs[e].text && frames == FramesIn(rs, m, |rs|)
              && Result(rs') == Some((rs'[e].text, FramesIn(rs', m, |rs|)))
              && SameNames(frames, FramesIn(rs', m, |rs|))
            case None => Result(rs').None?
  {
    hide FramesIn, RunTo, Result, Symbols.Normal, SameNames;
    e, m := ReportsLastSection(rs);
    var e', m' := ReportsLastSection(rs');
    if Result(rs).Some? {
      ShapeSection(rs, rs', e, m);
      SectionUnique(rs', |rs'|, e, m, e', m');
      ShapeFrames(rs, rs', m, |rs|);
    }
  }

  /** Marker lines that normalise alike, such as the same fault at other addresses. */
  ghost predicate SameFaults(rs: seq<Reading>, rs': seq<Reading>) {
    && |rs| == |rs'|
    && forall i :: 0 <= i < |rs| && rs[i].marker ==> Exceptions.Normal(rs[i].text) == Exceptions.Normal(rs'[i].text)
  }

  /** Logs that read alike line by line get the same key and title. */
  lemma SameShapeSameKey(kind: string, rs: seq<Reading>, rs': seq<Reading>)
    requires SameShape(rs, rs') && SameFaults(rs, rs')
    ensures SignatureOf(kind, Result(rs)).input == SignatureOf(kind, Result(rs')).input
    ensures SignatureOf(kind, Result(rs)).title == SignatureOf(kind, Result(rs')).title
  {
    hide SameShape, Result, Names, DropMachinery, Exceptions.Normal, SameNames, FramesIn;
    var e, m := SameSelection(rs, rs');
    if Result(rs).Some? {
      assert rs[e].marker;
      SameNamesSameKey(Result(rs).value.1, Result(rs').value.1);
    }
  }

  /** A location behind a line always shows in the key. */
  lemma LocatedKey(kind: string, raw: string, loc: string, names: seq<string>)
    requires Contains(raw, OFFSET)
    ensures KeyText(kind, Exceptions.Normal(Printk.Strip(raw + " (" + loc + ")")), names)
            != KeyText(kind, Exceptions.Normal(Printk.Strip(raw)), names)
  {
    hide Printk.Strip, Exceptions.Normal, Contains, Join;
    var ws := StripAnnotated(raw, loc);
    var x := Printk.Strip(raw);
    TailJoin(x, ws, loc);
    ExceptionTail.LocationShows(x, ws, loc);
    KeyCancels(kind, Exceptions.Normal(x), Exceptions.Normal(x + Tail(ws, loc)), names);
  }

  lemma KeyCancels(kind: string, x: string, y: string, names: seq<string>)
    ensures KeyText(kind, x, names) == KeyText(kind, y, names) <==> x == y
  {
    hide Join;
    var t := "|" + Join(names, "|");
    var k := kind + "|";
    assert KeyText(kind, x, names) == k + (x + t) && KeyText(kind, y, names) == k + (y + t);
    Cancel(k, x + t, y + t);
    if x + t == y + t {
      assert |x| == |y|;
      assert (x + t)[..|x|] == x && (y + t)[..|y|] == y;
    }
  }
}
