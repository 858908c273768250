/** What symbolisation does change: the modules of frames. */
module ModuleNames {
  import opened Wrappers
  import opened Text
  import Printk
  import Symbols
  import opened Signature
  import opened Oops
  import opened Sections
  import opened Annotate
  import opened Transparency
  import opened Pipeline

  /** The text of a frame before the short marks are peeled off. */
  function FrameText(line: string): string { Trim(DropQuestion(line)) }

  predicate Clean(loc: string) { '(' !in loc && '[' !in loc }

  lemma LastParen(h: string, loc: string)
    requires '(' !in loc
    ensures RFind(h + " (" + loc + ")", " (") == Some(|h|)
  {
    var x := h + " (" + loc + ")";
    assert OccursAt(x, " (", |h|) by { assert x[|h|..|h| + 2] == " ("; }
    var r := RFind(x, " (");
    if r.Some? {
      OccursChar(x, " (", r.value, 1);
      assert forall j :: |h| + 2 <= j < |x| ==> x[j] == (loc + ")")[j - |h| - 2];
    }
  }

  lemma {:induction false} ByteLenConcat(a: string, b: string)
    ensures ByteLen(a + b) == ByteLen(a) + ByteLen(b)
  {
    if a == "" {
      assert a + b == b;
    } else {
      assert (a + b)[1..] == a[1..] + b;
      ByteLenConcat(a[1..], b);
    }
  }

  /** A location of at least three bytes stays; a shorter one is taken for a mark and peeled off. */
  lemma LocationPeeled(x: string, ws: string, loc: string)
    requires '(' !in loc && AllSpace(ws) && (x == "" || !IsSpace(x[|x| - 1]))
    ensures Peel(x + ws + " (" + loc + ")") == if ByteLen(loc) < 3 then Peel(x) else x + ws + " (" + loc + ")"
  {
    hide RFind, ByteLen, TrimEnd, IsSpace;
    var h := x + ws;
    var y := h + " (" + loc + ")";
    LastParen(h, loc);
    assert y[|h| + 2..] == loc + ")" && y[..|h|] == h;
    ByteLenConcat(loc, ")");
    assert ByteLen(")") == 1 by { CloseLen(); }
    TrimEndIs(x, ws);
    assert EndsWith(y, ")");
  }

  lemma CloseLen()
    ensures ByteLen(")") == 1
  {
    assert ")"[1..] == "";
  }

  lemma NoBracketBehind(x: string, ws: string, loc: string)
    requires AllSpace(ws) && '[' !in loc && !Contains(x, " [")
    ensures !Contains(x + ws + " (" + loc + ")", " [")
  {
    var y := x + ws + " (" + loc + ")";
    var r := Find(y, " [");
    if r.Some? {
      var i := r.value;
      OccursChar(y, " [", i, 0);
      OccursChar(y, " [", i, 1);
      assert forall k :: |x| <= k < |x| + |ws| ==> y[k] == ws[k - |x|];
      assert forall k :: |x| + |ws| + 2 <= k < |y| ==> y[k] == (loc + ")")[k - |x| - |ws| - 2];
      assert y[|x| + |ws|] == ' ' && y[|x| + |ws| + 1] == '(';
      assert !IsSpace('[');
      assert i + 2 <= |x|;
      assert y == x + y[|x|..];
      OccursInPart(x, y[|x|..], " [", i);
    }
  }

  lemma {:induction false} DropClosingShorter(s: string)
    ensures |DropClosing(s)| <= |s| && (s != "" && s[|s| - 1] != ']' ==> DropClosing(s) == s)
  {
    if EndsWith(s, "]") {
      DropClosingShorter(s[..|s| - 1]);
    }
  }

  /** With a bracket in the frame text the location becomes part of the module's name. */
  lemma BracketTakesLocation(x: string, tail: string)
    requires Contains(x, " [") && tail != "" && tail[|tail| - 1] == ')'
    ensures ModulePart(x + tail) != ModulePart(Peel(x))
  {
    hide Peel, Find;
    FindTail(x, " [", tail);
    var q := Find(x, " [").value;
    var rest := (x + tail)[q + 2..];
    assert rest[|rest| - 1] == ')';
    DropClosingShorter(rest);
    var p := Peel(x);
    PeelPrefix(x);
    assert x == p + x[|p|..];
    if Find(p, " [").Some? {
      FindTail(p, " [", x[|p|..]);
      DropClosingShorter(p[q + 2..]);
    }
  }

  /** A frame keeps its module exactly if its text has no bracket, or the location is short enough to be
      taken for a mark. */
  lemma ModuleKeptIff(x: string, ws: string, loc: string)
    requires AllSpace(ws) && Clean(loc) && (x == "" || !IsSpace(x[|x| - 1]))
    ensures ModulePart(Peel(x + ws + " (" + loc + ")")) == ModulePart(Peel(x)) <==>
            ByteLen(loc) < 3 || !Contains(x, " [")
  {
    hide Peel, Contains, ByteLen, ModulePart, IsSpace;
    LocationPeeled(x, ws, loc);
    if ByteLen(loc) >= 3 {
      var tail := ws + " (" + loc + ")";
      assert x + ws + " (" + loc + ")" == x + tail by { Gathered(x, ws, loc); }
      if Contains(x, " [") {
        BracketTakesLocation(x, tail);
      } else {
        NoBracketBehind(x, ws, loc);
        NoBracketNoModule(x + ws + " (" + loc + ")");
        NoBracketPeeled(x);
      }
    }
  }

  lemma Gathered(x: string, ws: string, loc: string)
    ensures x + ws + " (" + loc + ")" == x + (ws + " (" + loc + ")")
  {
  }

  lemma NoBracketNoModule(y: string)
    requires !Contains(y, " [")
    ensures ModulePart(y) == None
  {
  }

  lemma NoBracketPeeled(x: string)
    requires !Contains(x, " [")
    ensures ModulePart(Peel(x)) == None
  {
    hide Peel, Find;
    var p := Peel(x);
    PeelPrefix(x);
    assert x == p + x[|p|..];
    if Find(p, " [").Some? {
      FindTail(p, " [", x[|p|..]);
    }
  }

  /** The same for a trace line. */
  lemma LineModuleKeptIff(m: string, ws: string, loc: string)
    requires Contains(m, OFFSET) && AllSpace(ws) && Clean(loc) && !Contains(loc, END_TRACE) && TraceLine(m).Some?
    ensures var m' := m + Tail(ws, loc);
      && TraceLine(m').Some?
      && (TraceLine(m').value.modName == TraceLine(m).value.modName <==> ByteLen(loc) < 3 || !Contains(FrameText(m), " ["))
  {
    FrameTail(m, ws, loc);
    hide Peel, Trim, Find, SymbolPart, ModulePart, Tail, ByteLen;
    var t := Tail(ws, loc);
    DropQuestionTail(m, t);
    LastOfTail(ws, loc);
    var u := DropQuestion(m);
    OffsetChars(u, Find(u, OFFSET).value);
    hide DropQuestion;
    var ws2 := Printk.TrimTail(u, t);
    TailGap(Trim(u), ws2, ws, loc);
    TrimEndsSolid(u);
    ModuleKeptIff(Trim(u), ws2 + ws, loc);
  }

  lemma TailGap(x: string, a: string, b: string, loc: string)
    requires AllSpace(a) && AllSpace(b)
    ensures x + a + Tail(b, loc) == x + (a + b) + " (" + loc + ")" && AllSpace(a + b)
  {
  }

  lemma TrimEndsSolid(u: string)
    ensures var x := Trim(u); x == "" || !IsSpace(x[|x| - 1])
  {
  }

  // ----- whole logs -----

  ghost predicate AllClean(resolve: Resolver) {
    forall s, o, m :: resolve(s, o, m).Some? ==> Clean(resolve(s, o, m).value)
  }

  /** A located line whose frame text has a bracket. */
  predicate Displaced(line: string, resolve: Resolver) {
    match Location(line, resolve)
    case Some(loc) => ByteLen(loc) >= 3 && Contains(FrameText(Printk.Strip(line)), " [")
    case None => false
  }

  lemma DisplacedIff(line: string, resolve: Resolver)
    requires AllNeutral(resolve) && AllClean(resolve) && ReadLine(line).frame.Some?
    ensures var f, f' := ReadLine(line).frame, ReadLine(AnnotatedLine(line, resolve)).frame;
      f'.Some? && (f'.value.modName == f.value.modName <==> !Displaced(line, resolve))
  {
    hide Printk.Strip, TraceLine, MatchAt, Tail, Find, ByteLen, FrameText, IsMarker, IsHeader;
    match Location(line, resolve)
    case Some(loc) =>
      var ws := StripAnnotated(line, loc);
      assert Neutral(loc) && Clean(loc);
      LineModuleKeptIff(Printk.Strip(line), ws, loc);
    case None =>
  }

  predicate SameModules(f: seq<Frame>, g: seq<Frame>) {
    |f| == |g| && forall k :: 0 <= k < |f| ==> f[k].modName == g[k].modName
  }

  ghost predicate NoneDisplaced(ls: seq<string>, rs: seq<Reading>, resolve: Resolver, lo: nat, hi: nat)
    requires hi <= |ls| == |rs|
  {
    forall i :: lo <= i < hi && FrameAt(rs, i) != [] ==> !Displaced(ls[i], resolve)
  }

  /** How the lines read before and after symbolising. */
  ghost predicate ReadAs(ls: seq<string>, rs: seq<Reading>, rs': seq<Reading>, resolve: Resolver) {
    && |ls| == |rs| && SameShape(rs, rs')
    && forall i :: 0 <= i < |ls| ==> rs[i] == ReadLine(ls[i]) && rs'[i] == ReadLine(AnnotatedLine(ls[i], resolve))
  }

  lemma LineModules(ls: seq<string>, rs: seq<Reading>, rs': seq<Reading>, resolve: Resolver, i: nat)
    requires AllNeutral(resolve) && AllClean(resolve) && ReadAs(ls, rs, rs', resolve) && i < |ls|
    ensures |FrameAt(rs, i)| == |FrameAt(rs', i)|
    ensures SameModules(FrameAt(rs, i), FrameAt(rs', i)) <==> FrameAt(rs, i) == [] || !Displaced(ls[i], resolve)
  {
    hide ReadLine, Displaced, InTrace, AnnotatedLine, Symbols.Normal, AllNeutral, AllClean;
    ShapeFrames(rs, rs', i, i);
    assert Alike(rs[i], rs'[i]);
    if FrameAt(rs, i) != [] {
      DisplacedIff(ls[i], resolve);
      assert SameModules(FrameAt(rs, i), FrameAt(rs', i)) <==> FrameAt(rs, i)[0].modName == FrameAt(rs', i)[0].modName;
    }
  }

  lemma SameModulesConcat(a: seq<Frame>, b: seq<Frame>, c: seq<Frame>, d: seq<Frame>)
    requires |a| == |c| && |b| == |d|
    ensures SameModules(a + b, c + d) <==> SameModules(a, c) && SameModules(b, d)
  {
    if SameModules(a + b, c + d) {
      forall k | 0 <= k < |a| ensures a[k].modName == c[k].modName {
        assert (a + b)[k] == a[k] && (c + d)[k] == c[k];
      }
      forall k | 0 <= k < |b| ensures b[k].modName == d[k].modName {
        assert (a + b)[|a| + k] == b[k] && (c + d)[|a| + k] == d[k];
      }
    }
  }

  lemma {:induction false} SectionModules(ls: seq<string>, rs: seq<Reading>, rs': seq<Reading>, resolve: Resolver, lo: nat, hi: nat)
    requires AllNeutral(resolve) && AllClean(resolve) && ReadAs(ls, rs, rs', resolve) && hi <= |ls|
    ensures |FramesIn(rs, lo, hi)| == |FramesIn(rs', lo, hi)|
    ensures SameModules(FramesIn(rs, lo, hi), FramesIn(rs', lo, hi)) <==> NoneDisplaced(ls, rs, resolve, lo, hi)
  {
    hide FrameAt, Displaced, ReadLine, AnnotatedLine, AllNeutral, AllClean, Alike;
    if lo < hi {
      SectionModules(ls, rs, rs', resolve, lo, hi - 1);
      LineModules(ls, rs, rs', resolve, hi - 1);
      SameModulesConcat(FramesIn(rs, lo, hi - 1), FrameAt(rs, hi - 1), FramesIn(rs', lo, hi - 1), FrameAt(rs', hi - 1));
      hide SameModules;
    }
  }

  /** Symbolising a text keeps the modules of the reported frames exactly if no located frame line of the
      reported section has a bracket in its frame text. */
  lemma ModulesKeptIff(text: string, resolve: Resolver) returns (e: nat, m: nat)
    requires AllNeutral(resolve) && AllClean(resolve)
    ensures var ls, rs, parsed := Lines(text), Readings(text), Parsed(Annotated(text, resolve));
      |ls| == |rs| &&
      match Result(rs)
      case Some((_, frames)) =>
        && IsSection(rs, |rs|, e, m) && parsed.Some? && SameNames(frames, parsed.value.1)
        && (SameModules(frames, parsed.value.1) <==> NoneDisplaced(ls, rs, resolve, m, |ls|))
      case None => parsed.None?
  {
    hide Lines, Readings, SameShape, Result, ReadLine, AnnotatedLine, AllNeutral, AllClean, FramesIn, NoneDisplaced, SameNames,
      SameModules, FirstMatch, IsSection, Annotated;
    var ls, rs, rs' := Lines(text), Readings(text), Readings(Annotated(text, resolve));
    PassShape(s => s, text, resolve);
    e, m := SameSelection(rs, rs');
    if Result(rs).Some? {
      SectionHasMarker(rs, e, m);
      SectionModules(ls, rs, rs', resolve, m, |ls|);
    }
  }

  // ----- what becomes of the module -----

  lemma LongMarkStays(h: string, loc: string)
    requires '(' !in loc && ByteLen(loc) >= 3
    ensures Peel(h + " (" + loc + ")") == h + " (" + loc + ")"
  {
    hide RFind, ByteLen;
    var x := h + " (" + loc + ")";
    LastParen(h, loc);
    assert x[|h| + 2..] == loc + ")";
    ByteLenConcat(loc, ")");
  }

  /** Behind a frame with a module, the location becomes part of the module's name. */
  lemma LocationJoinsModule(sym: string, m: string, loc: string)
    requires '[' !in sym && '(' !in loc && ByteLen(loc) >= 3
    ensures ModulePart(Peel(sym + " [" + m + "]" + " (" + loc + ")")) == Some(m + "]" + " (" + loc + ")")
  {
    hide Peel, SplitOnce, ByteLen;
    LongMarkStays(sym + " [" + m + "]", loc);
    var rest := m + "]" + " (" + loc + ")";
    Behind(sym + " [", m, "]", " (" + loc + ")");
    Assoc(sym + " [" + m + "]", " (" + loc, ")");
    Assoc(sym + " [" + m + "]", " (", loc);
    Assoc(m + "]", " (", loc);
    Assoc(m + "]", " (" + loc, ")");
    SplitBracket(sym, rest);
    assert rest[|rest| - 1] == ')';
    assert DropClosing(rest) == rest;
  }

  lemma Behind(a: string, b: string, c: string, d: string)
    ensures a + b + c + d == a + (b + c + d)
  {
  }

  lemma SplitBracket(sym: string, rest: string)
    requires '[' !in sym
    ensures SplitOnce(sym + " [" + rest, " [") == Some((sym, rest))
  {
    var x := sym + " [" + rest;
    assert OccursAt(x, " [", |sym|) by { assert x[|sym|..|sym| + 2] == " ["; }
    forall j | 0 <= j < |sym| ensures !OccursAt(x, " [", j) {
      if OccursAt(x, " [", j) {
        OccursChar(x, " [", j, 1);
      }
      assert x[j + 1] == if j + 1 < |sym| then sym[j + 1] else ' ';
    }
    assert x[|sym| + 2..] == rest && x[..|sym|] == sym;
  }

  // ----- a text whose modules change -----

  lemma StripOfPlain(s: string)
    requires s != "" && !IsSpace(s[0]) && !IsSpace(s[|s| - 1]) && s[0] != '<' && s[0] != '[' && '.' !in s
    ensures Printk.Strip(s) == s && Trim(s) == s
  {
    hide SplitOnce, TrimStart, TrimEnd, IsSpace;
    TrimStartIs("", s);
    TrimEndIs(s, "");
    assert "" + s == s && s + "" == s;
    SplitOnceParts(s, ' ');
    match SplitOnce(s, " ")
    case Some((a, b)) => assert '.' in a ==> '.' in s by { Inside(s, a, b); }
    case None =>
  }

  lemma Inside(s: string, a: string, b: string)
    requires s == a + " " + b
    ensures forall c :: c in a ==> c in s
  {
    forall c | c in a ensures c in s {
      var i :| 0 <= i < |a| && a[i] == c;
      assert s[i] == c;
    }
  }

  lemma Absent(s: string, p: string)
    requires p != "" && p[0] !in s
    ensures !Contains(s, p)
  {
    if Find(s, p).Some? {
      OccursChar(s, p, Find(s, p).value, 0);
    }
  }

  lemma NoMarkers(s: string)
    requires 'O' !in s && 'k' !in s && 'I' !in s && 'U' !in s && 'B' !in s && 'W' !in s
    ensures !IsMarker(s) && forall k :: 0 <= k < |MARKERS| ==> !Contains(s, MARKERS[k])
  {
    hide Contains;
    forall k | 0 <= k < |MARKERS| ensures !Contains(s, MARKERS[k]) {
      Absent(s, MARKERS[k]);
    }
  }

  predicate Tame(c: char) { IsDigit(c) || 'a' <= c <= 'f' || c == 'm' || c == 'x' || c == '+' || c == '/' }

  predicate AllTame(s: string) { forall i :: 0 <= i < |s| ==> Tame(s[i]) }

  function Line(sym: string, m: string): string { sym + " [" + m + "]" }

  lemma LineChars(sym: string, m: string)
    requires AllTame(sym) && AllTame(m) && sym != ""
    ensures var l := Line(sym, m);
      && l != "" && l[0] == sym[0] && l[|l| - 1] == ']'
      && forall c :: c in l ==> Tame(c) || c == ' ' || c == '[' || c == ']'
  {
    var l := Line(sym, m);
    forall c | c in l ensures Tame(c) || c == ' ' || c == '[' || c == ']' {
      var i :| 0 <= i < |l| && l[i] == c;
      assert i < |sym| ==> l[i] == sym[i];
      assert |sym| + 2 <= i < |l| - 1 ==> l[i] == m[i - |sym| - 2];
    }
  }

  /** A line of such characters has no special reading. */
  ghost predicate PlainLine(l: string) {
    && l != "" && Tame(l[0]) && l[|l| - 1] == ']'
    && forall c :: c in l ==> Tame(c) || c == ' ' || c == '[' || c == ']'
  }

  lemma PlainSpaces(l: string)
    requires PlainLine(l)
    ensures Printk.Strip(l) == l && Trim(l) == l
  {
    hide Trim, Printk.Strip;
    assert !Tame('.') && !IsSpace(']') && !Tame('<') && !Tame('[');
    TameIsSolid(l[0]);
    StripOfPlain(l);
  }

  lemma TameIsSolid(c: char)
    requires Tame(c)
    ensures !IsSpace(c)
  {
  }

  lemma PlainTexts(l: string)
    requires PlainLine(l)
    ensures !IsMarker(l) && !Contains(l, END_TRACE)
  {
    hide IsMarker, Contains;
    assert !Tame('O') && !Tame('k') && !Tame('I') && !Tame('U') && !Tame('B') && !Tame('W') && !Tame('-');
    NoMarkers(l);
    Absent(l, END_TRACE);
  }

  lemma PlainStart(l: string)
    requires PlainLine(l)
    ensures !IsHeader(l) && !StartsWith(l, "? ") && DropQuestion(l) == l && Peel(l) == l
  {
    assert l[0] != 'C' && l[0] != '?';
    assert !EndsWith(l, ")");
  }

  lemma LineIsPlain(sym: string, m: string)
    requires AllTame(sym) && AllTame(m) && sym != ""
    ensures PlainLine(Line(sym, m))
  {
    LineChars(sym, m);
    hide Line;
  }

  lemma FrameRead(l: string, sym: string, rest: string)
    requires !EndsTrace(l) && !StartsWith(l, "? ") && Trim(DropQuestion(l)) == l && Peel(l) == l
    requires SplitOnce(l, " [") == Some((sym, rest)) && Contains(sym, OFFSET)
    ensures TraceLine(l) == Some(Frame(sym, Some(DropClosing(rest)), false))
    ensures FrameText(l) == l && Contains(l, " [")
  {
    hide Trim, DropQuestion, Peel, EndsTrace, Find, DropClosing;
  }

  lemma LineFrame(sym: string, m: string)
    requires AllTame(sym) && AllTame(m) && sym != "" && Contains(sym, OFFSET)
    ensures var l := Line(sym, m);
      && TraceLine(l) == Some(Frame(sym, Some(m), false))
      && FrameText(l) == l && Contains(l, " [")
  {
    hide Line, Contains, SplitOnce, Trim, DropQuestion, Peel, DropClosing, AllTame, TraceLine, FrameText, StartsWith,
      PlainLine;
    var l := Line(sym, m);
    LineIsPlain(sym, m);
    LineAssoc(sym, m);
    NoneIn(sym);
    SplitBracket(sym, m + "]");
    PlainTexts(l);
    PlainSpaces(l);
    PlainStart(l);
    PlainNotEmpty(l);
    CloseDropped(m);
    FrameRead(l, sym, m + "]");
  }

  lemma PlainNotEmpty(l: string)
    requires PlainLine(l)
    ensures l != ""
  {
  }

  lemma NoneIn(s: string)
    requires AllTame(s)
    ensures '[' !in s
  {
  }

  lemma LineAssoc(sym: string, m: string)
    ensures Line(sym, m) == sym + " [" + (m + "]")
  {
  }

  lemma CloseDropped(m: string)
    requires AllTame(m)
    ensures DropClosing(m + "]") == m
  {
    assert (m + "]")[..|m|] == m;
    DropClosingShorter(m);
    assert m != "" ==> Tame(m[|m| - 1]);
  }

  /** A log of a marker line, a trace header and one frame. */
  ghost predicate FrameLog(rs: seq<Reading>, f: Frame) {
    && |rs| == 3 && rs[0].marker && !rs[0].header && !rs[1].marker && rs[1].header
    && !rs[2].marker && !rs[2].header && rs[2].frame == Some(f)
  }

  lemma LogParsed(rs: seq<Reading>, f: Frame)
    requires FrameLog(rs, f)
    ensures Result(rs) == Some((rs[0].text, [f])) && FrameAt(rs, 2) != []
  {
    assert RunTo(rs, 1) == Parse(Some(rs[0].text), [], false);
    assert RunTo(rs, 2) == Parse(Some(rs[0].text), [], true);
    assert RunTo(rs, 3) == Parse(Some(rs[0].text), [f], true);
    assert InTrace(rs, 2);
  }

  /** The pattern finds symbol, offset and size at the start of a line. */
  lemma SymbolMatches(l: string, j: nat, k: nat, e: nat)
    requires 0 < j && j + 3 < k && k + 3 < e <= |l|
    requires OccursAt(l, OFFSET, j) && OccursAt(l, "/0x", k) && (e < |l| ==> !IsHexDigit(l[e]))
    requires forall i :: 0 <= i < j ==> IsSymbolChar(l[i])
    requires forall i :: j + 3 <= i < k || k + 3 <= i < e ==> IsHexDigit(l[i])
    ensures FirstMatch(l, 0).Some?
  {
    hide RunEnd, ModuleAt;
    OccursChar(l, OFFSET, j, 0);
    OccursChar(l, "/0x", k, 0);
    RunIs(l, 0, IsSymbolChar, j);
    RunIs(l, j + 3, IsHexDigit, k);
    RunIs(l, k + 3, IsHexDigit, e);
    assert MatchAt(l, 0).Some?;
  }

  /** A resolver that knows only one location. */
  function Always(loc: string): Resolver { (_, _, _) => Some(loc) }

  lemma AlwaysFits(loc: string)
    requires Clean(loc) && OneLine(loc) && '-' !in loc
    requires 'O' !in loc && 'k' !in loc && 'I' !in loc && 'U' !in loc && 'B' !in loc && 'W' !in loc
    ensures AllNeutral(Always(loc)) && AllClean(Always(loc))
  {
    NoMarkers(loc);
    Absent(loc, END_TRACE);
    hide Contains;
  }

  lemma OneModule(f: Frame, gs: seq<Frame>, m: string)
    requires Usable(f) && f.modName == Some(m) && SameNames([f], gs) && !SameModules([f], gs)
    ensures Distinct(Modules([f])) == [m] && Distinct(Modules(gs)) != [m]
  {
    hide Symbols.Normal;
    var g := gs[0];
    assert gs == [g] && [f][0] == f;
    NamesOfOne(f);
    NamesOfOne(g);
    assert Distinct([m]) == [m] by { assert [m][..0] == []; }
    assert Modules(gs) == [] || Modules(gs) == [g.modName.value];
  }

  lemma ClassifiedModules(kind: string, text: string)
    requires Parsed(text).Some?
    ensures Classified(kind, text).modules == Distinct(Modules(Parsed(text).value.1))
  {
    hide Parsed, Input, Title;
  }

  /** A single located frame with a module gets another module. */
  lemma LogModulesChange(kind: string, text: string, f: Frame, m: string, resolve: Resolver)
    requires |Lines(text)| == 3 && FrameLog(Readings(text), f) && Usable(f) && f.modName == Some(m)
    requires Displaced(Lines(text)[2], resolve) && AllNeutral(resolve) && AllClean(resolve)
    ensures Classified(kind, text).modules == [m]
    ensures Classified(kind, Annotated(text, resolve)).modules != [m]
  {
    hide Lines, Readings, Displaced, FrameAt, Symbols.Normal, Annotated, AllNeutral, AllClean, Result,
      SameModules, SameNames, Distinct, Modules, FramesIn, SignatureOf;
    LogParsed(Readings(text), f);
    var e, k := ModulesKeptIff(text, resolve);
    assert k == 0;
    assert !NoneDisplaced(Lines(text), Readings(text), resolve, k, 3);
    ClassifiedModules(kind, text);
    ClassifiedModules(kind, Annotated(text, resolve));
    OneModule(f, Parsed(Annotated(text, resolve)).value.1, m);
  }

  lemma LogRead(o: string, h: string, l: string, f: Frame)
    requires OneLine(o) && OneLine(h) && OneLine(l) && StripCr(o) == o && StripCr(h) == h && StripCr(l) == l
    requires Printk.Strip(o) == o && IsMarker(o) && !IsHeader(o)
    requires Printk.Strip(h) == h && !IsMarker(h) && IsHeader(h)
    requires Printk.Strip(l) == l && !IsMarker(l) && !IsHeader(l) && TraceLine(l) == Some(f)
    ensures Lines(Unlines([o, h, l])) == [o, h, l] && FrameLog(Readings(Unlines([o, h, l])), f)
  {
    hide OneLine, StripCr, Printk.Strip, IsMarker, IsHeader, TraceLine, Lines, Unlines;
    LinesOfUnlines([o, h, l]);
  }

  lemma Found(s: string, p: string, i: nat)
    requires OccursAt(s, p, i)
    ensures Contains(s, p)
  {
    hide FindFrom;
  }

  lemma MarkerFound(s: string, k: nat)
    requires k < |MARKERS| && s == MARKERS[k]
    ensures IsMarker(s)
  {
    hide Find;
    assert s[0..|s|] == s;
    Found(s, MARKERS[k], 0);
  }

  lemma OopsLine(o: string)
    requires o == "Oops"
    ensures Printk.Strip(o) == o && IsMarker(o) && !IsHeader(o) && OneLine(o) && StripCr(o) == o
  {
    hide Printk.Strip, Trim, IsMarker;
    StripOfPlain(o);
    MarkerFound(o, 0);
  }

  lemma HeaderLine(h: string)
    requires h == "Call Trace:"
    ensures Printk.Strip(h) == h && !IsMarker(h) && IsHeader(h) && OneLine(h) && StripCr(h) == h
  {
    hide Printk.Strip, Trim, IsMarker, Contains;
    StripOfPlain(h);
    NoMarkers(h);
  }

  lemma FrameLine(sym: string, m: string, l: string)
    requires sym == "f+0x1/0x2" && m == "m" && l == "f+0x1/0x2 [m]"
    ensures Printk.Strip(l) == l && !IsMarker(l) && !IsHeader(l) && TraceLine(l) == Some(Frame(sym, Some(m), false))
    ensures OneLine(l) && StripCr(l) == l && FrameText(l) == l && Contains(l, " [")
  {
    hide Printk.Strip, Trim, IsMarker, IsHeader, TraceLine, FrameText, Contains, StartsWith, DropQuestion, Peel, PlainLine;
    FrameChars(sym, m, l);
    Found(sym, OFFSET, 1);
    LineIsPlain(sym, m);
    PlainSpaces(l);
    PlainTexts(l);
    PlainStart(l);
    LineFrame(sym, m);
  }

  lemma FrameChars(sym: string, m: string, l: string)
    requires sym == "f+0x1/0x2" && m == "m" && l == "f+0x1/0x2 [m]"
    ensures l == Line(sym, m) && AllTame(sym) && AllTame(m) && sym != "" && OccursAt(sym, OFFSET, 1)
  {
    assert sym[1..4] == OFFSET;
  }

  lemma FrameMatches(l: string)
    requires l == "f+0x1/0x2 [m]"
    ensures FirstMatch(l, 0).Some?
  {
    assert l[1..4] == OFFSET && l[5..8] == "/0x";
    hide FirstMatch;
    SymbolMatches(l, 1, 5, 9);
  }

  lemma FrameUsable(sym: string)
    requires sym == "f+0x1/0x2"
    ensures Symbols.Normal(sym) != ""
  {
    hide Printk.Strip, Trim, Symbols.CutAt;
    var a, b := "f", "1/0x2";
    StripOfPlain(sym);
    assert sym == a + OFFSET + b;
    Symbols.CutBeforeOffset(a, b);
    ShortStays(a);
  }

  lemma ShortStays(a: string)
    requires |a| == 1
    ensures Symbols.CutAt(a, Symbols.PATTERNS) == a
  {
    assert forall k :: 0 <= k < |Symbols.PATTERNS| ==> |Symbols.PATTERNS[k]| > 1;
    assert !Symbols.AnyAt(a, Symbols.PATTERNS, 0);
  }

  /** A text and a resolver for which it happens: the module `m` of this log becomes another one. */
  lemma ModulesChange(kind: string)
    ensures var text := Unlines(["Oops", "Call Trace:", "f+0x1/0x2 [m]"]); var resolve := Always("net/a.c:3");
      && AllNeutral(resolve) && AllClean(resolve)
      && Classified(kind, text).modules == ["m"] && Classified(kind, Annotated(text, resolve)).modules != ["m"]
  {
    hide Printk.Strip, IsMarker, IsHeader, TraceLine, FrameText, Contains, OneLine, StripCr, Unlines, Lines, Readings, SignatureOf, Parsed, Annotated,
      AllNeutral, AllClean, FrameLog, Symbols.Normal, FirstMatch, ByteLen;
    var o, h, sym, m, l, loc := "Oops", "Call Trace:", "f+0x1/0x2", "m", "f+0x1/0x2 [m]", "net/a.c:3";
    OopsLine(o);
    HeaderLine(h);
    FrameLine(sym, m, l);
    FrameMatches(l);
    FrameUsable(sym);
    SourceFits(loc);
    var f := Frame(sym, Some(m), false);
    LogRead(o, h, l, f);
    LogModulesChange(kind, Unlines([o, h, l]), f, m, Always(loc));
  }

  lemma SourceFits(loc: string)
    requires loc == "net/a.c:3"
    ensures AllNeutral(Always(loc)) && AllClean(Always(loc)) && ByteLen(loc) >= 3
  {
    hide AllNeutral, AllClean;
    AlwaysFits(loc);
  }
}
