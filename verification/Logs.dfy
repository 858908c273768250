/** Logs of the same crash, as texts: other prefixes, offsets, addresses and noise. */
module Logs {
  import opened Wrappers
  import opened Text
  import Printk
  import Symbols
  import Exceptions
  import Noise
  import opened Signature
  import opened Oops
  import opened Sections
  import opened Transparency

  // ----- lines with other offsets -----

  /** What decides the frame on a line with an offset: the text before the first offset. */
  function Lead(m: string): string
    requires Contains(DropQuestion(m), OFFSET)
  {
    var u := DropQuestion(m);
    TrimStart(u[..Find(u, OFFSET).value])
  }

  lemma FirstAfterTrim(p: string, h: string, c: string)
    requires |h| <= |p| && h == p[|p| - |h|..] && !Contains(p, OFFSET)
    ensures Find(h + OFFSET + c, OFFSET) == Some(|h|)
  {
    var x := h + OFFSET + c;
    Symbols.OffsetOccurs(h, c);
    OffsetChars(x, |h|);
    forall j | 0 <= j < |h| ensures !OccursAt(x, OFFSET, j) {
      if OccursAt(x, OFFSET, j) {
        OffsetChars(x, j);
        assert x == h + (OFFSET + c);
        OccursInPart(h, OFFSET + c, OFFSET, j);
        assert p == p[..|p| - |h|] + h;
        OccursInPart(p[..|p| - |h|], h, OFFSET, |p| - |h| + j);
      }
    }
  }

  lemma NoneBefore(u: string)
    requires Contains(u, OFFSET)
    ensures var p := u[..Find(u, OFFSET).value]; !Contains(p, OFFSET) && u == p + OFFSET + u[|p| + 3..]
  {
    var i := Find(u, OFFSET).value;
    var p := u[..i];
    assert u == p + u[i..] && u[i..i + 3] == OFFSET;
    if Find(p, OFFSET).Some? {
      FindTail(p, OFFSET, u[i..]);
    }
  }

  lemma FrameOfOffset(m: string, b: string)
    requires Contains(m, OFFSET) && !Contains(m + b, END_TRACE)
    ensures Contains(DropQuestion(m), OFFSET)
    ensures match TraceLine(m + b)
            case Some(f) => !Contains(Lead(m), " [") && f.questionable == StartsWith(m, "? ")
                            && Symbols.Normal(f.symbol) == Symbols.Normal(Lead(m) + OFFSET)
            case None => Contains(Lead(m), " [")
  {
    hide Symbols.Normal, Peel, Trim, DropQuestion, Find, SymbolPart, ModulePart, TrimStart, StartsWith;
    OffsetChars(m, Find(m, OFFSET).value);
    PrefixTail(m, b, "? ");
    DropQuestionTail(m, b);
    var u := DropQuestion(m);
    NoneBefore(u);
    TrimStartParts(u[..Find(u, OFFSET).value]);
    var p := u[..Find(u, OFFSET).value];
    var q := u[|p| + 3..];
    Assoc(p + OFFSET, q, b);
    var c := Symbols.TrimAroundOffset(p, q + b);
    FirstAfterTrim(p, TrimStart(p), c);
    Assoc(TrimStart(p), OFFSET, c);
    assert m + b != "";
    SymbolBefore(TrimStart(p) + OFFSET + c, TrimStart(p));
  }

  /** A line keeps its reading whatever stands behind its first offset or a later one, as long as that
      brings no crash marker and no end of trace. */
  lemma OffsetAlike(a: string, b: string, c: string)
    requires IsMarker(a + OFFSET + b) <==> IsMarker(a + OFFSET + c)
    requires !Contains(a + OFFSET + b, END_TRACE) && !Contains(a + OFFSET + c, END_TRACE)
    ensures Alike(ReadText(a + OFFSET + b), ReadText(a + OFFSET + c))
  {
    hide IsMarker, TraceLine, Symbols.Normal, Find, Lead, StartsWith, DropQuestion;
    var m := a + OFFSET;
    assert m + "" == m;
    Symbols.OffsetOccurs(a, "");
    OffsetIsThere(m, |a|);
    OffsetChars(m, |a|);
    PrefixTail(m, b, "Call trace:");
    PrefixTail(m, b, "Call Trace:");
    PrefixTail(m, c, "Call trace:");
    PrefixTail(m, c, "Call Trace:");
    FrameOfOffset(m, b);
    FrameOfOffset(m, c);
  }

  lemma OffsetIsThere(s: string, i: nat)
    requires OccursAt(s, OFFSET, i)
    ensures Contains(s, OFFSET)
  {
  }

  // ----- lines without a frame -----

  lemma NoOffsetIn(x: string, a: string, y: string, b: string)
    requires x == a + y + b && !Contains(x, OFFSET)
    ensures !Contains(y, OFFSET)
  {
    assert x == a + (y + b);
    if Find(y, OFFSET).Some? {
      var i := Find(y, OFFSET).value;
      OccursInPart(y, b, OFFSET, i);
      OccursInPart(a, y + b, OFFSET, |a| + i);
    }
  }

  lemma {:induction false} DropQuestionSuffix(m: string) returns (a: string)
    ensures m == a + DropQuestion(m)
    decreases |m|
  {
    if StartsWith(m, "? ") {
      a := DropQuestionSuffix(m[2..]);
      a := m[..2] + a;
    } else {
      a := "";
    }
  }

  /** A line without an offset carries no frame. */
  lemma NoFrame(m: string)
    requires !Contains(m, OFFSET)
    ensures TraceLine(m) == None
  {
    hide Peel, Trim, DropQuestion, Find, ModulePart;
    var a := DropQuestionSuffix(m);
    var u := DropQuestion(m);
    var b, c := TrimParts(u);
    var x := Trim(u);
    Regroup("", a, b, x, c);
    assert m == a + b + x + c;
    NoOffsetIn(m, a + b, x, c);
    var y := Peel(x);
    PeelPrefix(x);
    assert x == "" + y + x[|y|..];
    NoOffsetIn(x, "", y, x[|y|..]);
    SymbolIsPrefix(y);
    var z := SymbolPart(y);
    assert y == "" + z + y[|z|..];
    NoOffsetIn(y, "", z, y[|z|..]);
  }

  lemma SymbolIsPrefix(y: string)
    ensures SymbolPart(y) <= y
  {
  }

  // ----- variations of a message -----

  /** Two forms of one message. */
  datatype Variation =
    | Kept(text: string)
    | Moved(before: string, offset: string, offset': string)
    | Readdressed(pre: string, token: string, token': string, post: string)
    | Other(text: string, text': string)

  function Left(v: Variation): string {
    match v
    case Kept(t) => t
    case Moved(a, b, _) => a + OFFSET + b
    case Readdressed(pre, x, _, post) => pre + x + post
    case Other(t, _) => t
  }

  function Right(v: Variation): string {
    match v
    case Kept(t) => t
    case Moved(a, _, c) => a + OFFSET + c
    case Readdressed(pre, _, y, post) => pre + y + post
    case Other(_, t) => t
  }

  /** No frame and no trace header. */
  predicate Flat(m: string) { !Contains(m, OFFSET) && !IsHeader(m) }

  /** Another offset behind a symbol outside fault lines, another address or counter on a line without a frame, or
      another text where the parser reads nothing. */
  ghost predicate Harmless(v: Variation) {
    match v
    case Kept(_) => true
    case Moved(_, _, _) =>
      !IsMarker(Left(v)) && !IsMarker(Right(v)) && !Contains(Left(v), END_TRACE) && !Contains(Right(v), END_TRACE)
    case Readdressed(pre, x, y, post) =>
      && Noise.Fleeting(x) && Noise.Fleeting(y) && (pre == "" || IsSpace(pre[|pre| - 1])) && StartsSpaced(post)
      && Flat(Left(v)) && Flat(Right(v)) && (IsMarker(Left(v)) <==> IsMarker(Right(v)))
    case Other(t, t') => Flat(t) && Flat(t') && !IsMarker(t) && !IsMarker(t')
  }

  lemma HarmlessAlike(v: Variation)
    requires Harmless(v)
    ensures Alike(ReadText(Left(v)), ReadText(Right(v)))
    ensures IsMarker(Left(v)) ==> Exceptions.Normal(Left(v)) == Exceptions.Normal(Right(v))
  {
    hide IsMarker, IsHeader, TraceLine, Contains, Symbols.Normal, Exceptions.Normal, Noise.Fleeting;
    match v
    case Kept(t) =>
    case Moved(a, b, c) => OffsetAlike(a, b, c);
    case Readdressed(pre, x, y, post) =>
      NoFrame(Left(v));
      NoFrame(Right(v));
      Noise.Replaced(pre, x, y, post);
    case Other(t, t') =>
      NoFrame(t);
      NoFrame(t');
  }

  /** One line of two logs: their prefixes, the blanks around the message, and the message. */
  datatype Entry = Entry(prefix: Printk.Prefix, prefix': Printk.Prefix, lead: string, lead': string,
                         v: Variation, trail: string, trail': string)

  function LeftMessage(e: Entry): string { e.lead + Left(e.v) + e.trail }

  function RightMessage(e: Entry): string { e.lead' + Right(e.v) + e.trail' }

  function LeftLog(log: seq<Entry>): string {
    Unlines(Logged(seq(|log|, i requires 0 <= i < |log| => log[i].prefix), seq(|log|, i requires 0 <= i < |log| => LeftMessage(log[i]))))
  }

  function RightLog(log: seq<Entry>): string {
    Unlines(Logged(seq(|log|, i requires 0 <= i < |log| => log[i].prefix'), seq(|log|, i requires 0 <= i < |log| => RightMessage(log[i]))))
  }

  predicate Tidy(m: string) { m == "" || (!IsSpace(m[0]) && !IsSpace(m[|m| - 1])) }

  ghost predicate Fits(e: Entry) {
    && Printk.Valid(e.prefix) && Printk.Valid(e.prefix')
    && AllSpace(e.lead) && AllSpace(e.lead') && AllSpace(e.trail) && AllSpace(e.trail')
    && Tidy(Left(e.v)) && Tidy(Right(e.v))
    && OneLine(Printk.Render(e.prefix) + LeftMessage(e)) && OneLine(Printk.Render(e.prefix') + RightMessage(e))
    && Harmless(e.v)
  }

  lemma TrimmedMessage(a: string, m: string, b: string)
    requires AllSpace(a) && AllSpace(b) && Tidy(m)
    ensures Trim(a + m + b) == m
  {
    hide IsSpace, TrimStart, TrimEnd;
    if m == "" {
      assert AllSpace(a + m + b);
      assert a + m + b == (a + m + b) + "";
      TrimStartIs(a + m + b, "");
      TrimEndIs("", "");
      assert "" + "" == "";
    } else {
      assert a + m + b == a + (m + b);
      TrimStartIs(a, m + b);
      TrimEndIs(m, b);
    }
  }

  lemma LogsAlike(log: seq<Entry>)
    requires forall i :: 0 <= i < |log| ==> Fits(log[i])
    ensures SameShape(Readings(LeftLog(log)), Readings(RightLog(log)))
    ensures SameFaults(Readings(LeftLog(log)), Readings(RightLog(log)))
  {
    hide Readings, Unlines, Logged, Alike, ReadText, Printk.Valid, Printk.Render, Exceptions.Normal, Harmless, OneLine, Trim,
      AllSpace, Tidy, Left, Right;
    var ps, ms := seq(|log|, i requires 0 <= i < |log| => log[i].prefix), seq(|log|, i requires 0 <= i < |log| => LeftMessage(log[i]));
    var qs, ns := seq(|log|, i requires 0 <= i < |log| => log[i].prefix'), seq(|log|, i requires 0 <= i < |log| => RightMessage(log[i]));
    LoggedReadings(ps, ms);
    LoggedReadings(qs, ns);
    var rs, rs' := Readings(LeftLog(log)), Readings(RightLog(log));
    forall i | 0 <= i < |rs|
      ensures Alike(rs[i], rs'[i])
      ensures rs[i].marker ==> Exceptions.Normal(rs[i].text) == Exceptions.Normal(rs'[i].text)
    {
      var e := log[i];
      assert Fits(e);
      TrimmedMessage(e.lead, Left(e.v), e.trail);
      TrimmedMessage(e.lead', Right(e.v), e.trail');
      HarmlessAlike(e.v);
      Read(Left(e.v));
      Read(Right(e.v));
    }
  }

  lemma Read(m: string)
    ensures ReadText(m).text == m && ReadText(m).marker == IsMarker(m)
  {
  }

  /** The same crash gets the same key and title in two logs that differ, line by line, in log prefixes and
      blanks, in the offsets behind symbols, in the addresses on fault lines, and in any text that the
      parser does not read. */
  lemma SameCrashSameKey(kind: string, log: seq<Entry>)
    requires forall i :: 0 <= i < |log| ==> Fits(log[i])
    ensures Classified(kind, LeftLog(log)).input == Classified(kind, RightLog(log)).input
    ensures Classified(kind, LeftLog(log)).title == Classified(kind, RightLog(log)).title
  {
    hide SignatureOf, Result, Readings, LeftLog, RightLog, Fits, SameShape, SameFaults;
    LogsAlike(log);
    SameShapeSameKey(kind, Readings(LeftLog(log)), Readings(RightLog(log)));
  }

  // ----- lines that may come and go -----

  /** A line that the loop passes over in this state, or a questionable frame behind others or behind the
      last marker line. */
  predicate Unread(st: Parse, q: Reading, b: seq<Reading>) {
    || Step(st, q) == st
    || (!q.marker && !q.header && st.inTrace && q.frame.Some? && q.frame.value.questionable
        && (st.frames != [] || forall i :: 0 <= i < |b| ==> !b[i].marker))
  }

  /** Parser states that give the same signature. */
  predicate Equal(st: Parse, st': Parse) {
    && st.exception == st'.exception && st.inTrace == st'.inTrace
    && Names(st.frames) == Names(st'.frames) && Modules(st.frames) == Modules(st'.frames)
  }

  lemma EqualStep(st: Parse, st': Parse, r: Reading)
    requires Equal(st, st') && (r.marker ==> (st.frames == [] <==> st'.frames == []))
    ensures Equal(Step(st, r), Step(st', r))
    ensures (st.frames == [] <==> st'.frames == []) ==> (Step(st, r).frames == [] <==> Step(st', r).frames == [])
  {
    hide Names, Modules;
    if r.frame.Some? {
      var u, u' := Mark(st, r), Mark(st', r);
      NamesConcat(u.frames, [r.frame.value]);
      NamesConcat(u'.frames, [r.frame.value]);
    }
  }

  lemma {:induction false} EqualRuns(a: seq<Reading>, q: Reading, b: seq<Reading>, n: nat)
    requires Unread(RunTo(a, |a|), q, b) && n <= |b|
    ensures var st, st' := RunTo(a + b, |a| + n), RunTo(a + [q] + b, |a| + 1 + n);
      && Equal(st, st')
      && ((forall i :: 0 <= i < |b| ==> !b[i].marker) || (st.frames == [] <==> st'.frames == []))
  {
    hide Names, Modules, Step, Equal;
    var c, d := a + b, a + [q] + b;
    if n == 0 {
      RunPrefix(a, b, |a|);
      RunPrefix(a, [q] + b, |a|);
      Assoc(a, [q], b);
      UnreadStep(RunTo(a, |a|), q, b);
    } else {
      EqualRuns(a, q, b, n - 1);
      EqualStep(RunTo(c, |a| + n - 1), RunTo(d, |a| + n), b[n - 1]);
    }
  }

  lemma UnreadStep(st: Parse, q: Reading, b: seq<Reading>)
    requires Unread(st, q, b)
    ensures var st' := Step(st, q);
      && Equal(st, st')
      && ((forall i :: 0 <= i < |b| ==> !b[i].marker) || (st.frames == [] <==> st'.frames == []))
  {
    if Step(st, q) != st {
      NamesConcat(st.frames, [q.frame.value]);
      NamesOfOne(q.frame.value);
    }
  }

  lemma EqualBuilt(kind: string, e: string, f: seq<Frame>, g: seq<Frame>)
    requires Names(f) == Names(g) && Modules(f) == Modules(g)
    ensures Built(kind, e, f) == Built(kind, e, g)
  {
    hide Names, Modules, Distinct, DropMachinery, Join;
  }

  lemma EqualSignatures(kind: string, rs: seq<Reading>, rs': seq<Reading>)
    requires Equal(RunTo(rs, |rs|), RunTo(rs', |rs'|))
    ensures SignatureOf(kind, Result(rs)) == SignatureOf(kind, Result(rs'))
  {
    hide RunTo, Names, Modules, Built, Exceptions.Normal;
    var st, st' := RunTo(rs, |rs|), RunTo(rs', |rs'|);
    if st.exception.Some? {
      EqualBuilt(kind, Exceptions.Normal(st.exception.value), st.frames, st'.frames);
    }
  }

  lemma InsertIgnored(kind: string, a: seq<Reading>, q: Reading, b: seq<Reading>)
    requires Unread(RunTo(a, |a|), q, b)
    ensures SignatureOf(kind, Result(a + [q] + b)) == SignatureOf(kind, Result(a + b))
  {
    hide SignatureOf, Result, RunTo, Unread, Equal;
    EqualRuns(a, q, b, |b|);
    assert |a + b| == |a| + |b| && |a + [q] + b| == |a| + 1 + |b|;
    EqualSignatures(kind, a + b, a + [q] + b);
  }

  /** A text with such a line more or less has the same signature: a questionable frame, or any line outside
      a trace that is neither marker nor header. */
  lemma UnreadLineIgnored(kind: string, a: string, l: string, b: string)
    requires (a == "" || a[|a| - 1] == '\n') && OneLine(l)
    requires Unread(RunTo(Readings(a), |Readings(a)|), ReadLine(l), Readings(b))
    ensures Classified(kind, a + l + "\n" + b) == Classified(kind, a + b)
  {
    hide SignatureOf, Result, Readings, ReadLine, Unread, RunTo, OneLine;
    ReadingsConcat(a, b);
    ReadingsInsert(a, l, b);
    InsertIgnored(kind, Readings(a), ReadLine(l), Readings(b));
  }

  lemma ReadingsInsert(a: string, l: string, b: string)
    requires (a == "" || a[|a| - 1] == '\n') && OneLine(l)
    ensures Readings(a + l + "\n" + b) == Readings(a) + [ReadLine(l)] + Readings(b)
  {
    hide Lines, ReadText, Printk.Strip, StripCr, OneLine;
    var t := l + "\n" + b;
    assert a + l + "\n" + b == a + t;
    ReadingsConcat(a, t);
    LinesOfOne(l, b);
    Printk.StripOfStripCr(l);
    assert Readings(t) == [ReadLine(l)] + Readings(b);
  }
}
