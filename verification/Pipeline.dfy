/** The whole way from a payload's text to its key: symbolising, scrubbing, parsing. */
module Pipeline {
  import opened Wrappers
  import opened Text
  import Printk
  import Exceptions
  import opened Signature
  import opened Oops
  import opened Sections
  import opened Annotate
  import opened Transparency
  import Scrub
  import opened ScrubPass

  // ----- scrubbing line by line -----

  lemma PassOfCr(f: string -> string, a: string)
    requires Pass(f)
    ensures Printk.Strip(f(StripCr(a))) == Printk.Strip(f(a))
  {
    hide Printk.Strip, Contains, OneLine;
    if StripCr(a) != a {
      var b := StripCr(a);
      assert a == b + ['\r'] + "";
      assert f(a) == f(b) + ['\r'] + f("");
      assert f(b) + ['\r'] + "" == f(b) + "\r";
      Printk.StripCarriageReturn(f(b));
    }
  }

  /** The stripped lines of a scrubbed text are those of the text, scrubbed one by one. */
  lemma {:induction false} LinesOfPass(f: string -> string, s: string)
    requires Pass(f)
    ensures |Lines(f(s))| == |Lines(s)|
    ensures forall i :: 0 <= i < |Lines(s)| ==> Printk.Strip(Lines(f(s))[i]) == Printk.Strip(f(Lines(s)[i]))
    decreases |s|
  {
    hide Printk.Strip, Contains, Pass, StripCr, Lines;
    PassFacts(f, s);
    if s == "" {
      NoLinesIn(s);
      NoLinesIn(f(s));
    } else if '\n' !in s {
      LoneLine(s);
      LoneLine(f(s));
    } else {
      var a, b := FirstBreak(s);
      PassFacts(f, a);
      PassLocal(f, a, '\n', b);
      LinesOfOne(a, b);
      LinesOfOne(f(a), f(b));
      LinesOfPass(f, b);
      PassOfCr(f, a);
      Printk.StripOfStripCr(f(a));
    }
  }

  lemma NoLinesIn(s: string)
    requires s == ""
    ensures Lines(s) == []
  {
  }

  lemma LoneLine(s: string)
    requires s != "" && OneLine(s)
    ensures Lines(s) == [s]
  {
    NoChar(s, '\n');
  }

  lemma FirstBreak(s: string) returns (a: string, b: string)
    requires '\n' in s
    ensures s == a + "\n" + b && OneLine(a)
  {
    NoChar(s, '\n');
    BeforeChar(s, '\n');
    var i := Find(s, "\n").value;
    a, b := s[..i], s[i + 1..];
  }

  lemma PassFacts(f: string -> string, s: string)
    requires Pass(f)
    ensures (f(s) == "" <==> s == "") && (OneLine(s) ==> OneLine(f(s))) && (Contains(s, OFFSET) ==> Contains(f(s), OFFSET))
  {
  }

  lemma PassLocal(f: string -> string, a: string, c: char, b: string)
    requires Pass(f) && Blank(c)
    ensures f(a + [c] + b) == f(a) + [c] + f(b)
  {
  }

  // ----- a located line, scrubbed -----

  /** Scrubbing leaves the resolver's locations alone. */
  ghost predicate Untouched(f: string -> string, resolve: Resolver) {
    forall s, o, m :: resolve(s, o, m).Some? ==> f("(" + resolve(s, o, m).value + ")") == "(" + resolve(s, o, m).value + ")"
  }

  lemma PassOfLocated(f: string -> string, line: string, loc: string)
    requires Pass(f) && f("(" + loc + ")") == "(" + loc + ")"
    ensures f(line + " (" + loc + ")") == f(line) + " (" + loc + ")"
  {
    hide Pass;
    PassLocal(f, line, ' ', "(" + loc + ")");
    assert line + [' '] + ("(" + loc + ")") == line + " (" + loc + ")";
    assert f(line) + [' '] + ("(" + loc + ")") == f(line) + " (" + loc + ")";
  }

  lemma PassAlike(f: string -> string, line: string, resolve: Resolver)
    requires Pass(f) && AllNeutral(resolve) && Untouched(f, resolve)
    ensures Alike(ReadLine(f(line)), ReadLine(f(AnnotatedLine(line, resolve))))
  {
    hide Pass, Printk.Strip, ReadText, Alike, MatchAt, Tail, Contains, Neutral;
    match Location(line, resolve)
    case Some(loc) =>
      PassOfLocated(f, line, loc);
      PassFacts(f, line);
      var ws := StripAnnotated(f(line), loc);
      AlikeTail(Printk.Strip(f(line)), ws, loc);
    case None => AlikeSelf(ReadLine(f(line)));
  }

  lemma AlikeSelf(r: Reading)
    ensures Alike(r, r)
  {
  }

  lemma PassKey(f: string -> string, kind: string, line: string, resolve: Resolver, names: seq<string>)
    requires Pass(f) && Untouched(f, resolve)
    ensures var x, y := Printk.Strip(f(line)), Printk.Strip(f(AnnotatedLine(line, resolve)));
      && (Location(line, resolve).None? ==> x == y)
      && (KeyText(kind, Exceptions.Normal(y), names) == KeyText(kind, Exceptions.Normal(x), names)
          <==> Location(line, resolve).None?)
  {
    hide Pass, Printk.Strip, Exceptions.Normal, MatchAt, Contains, KeyText;
    match Location(line, resolve)
    case Some(loc) =>
      PassOfLocated(f, line, loc);
      PassFacts(f, line);
      LocatedKey(kind, f(line), loc, names);
    case None =>
  }

  /** What the parser sees of a text that was symbolised and scrubbed, against one that was only scrubbed. */
  lemma PassShape(f: string -> string, text: string, resolve: Resolver)
    requires Pass(f) && AllNeutral(resolve) && Untouched(f, resolve)
    ensures var ls, rs, rs' := Lines(text), Readings(f(text)), Readings(f(Annotated(text, resolve)));
      && |ls| == |rs| && SameShape(rs, rs')
      && forall i :: 0 <= i < |ls| ==>
           rs[i] == ReadLine(f(ls[i])) && rs'[i] == ReadLine(f(AnnotatedLine(ls[i], resolve)))
  {
    hide Lines, Unlines, Alike, Printk.Strip, ReadText, AnnotatedLine, AllNeutral, OneLine, StripCr, Pass, Untouched;
    var ls, ann := Lines(text), Annotated(text, resolve);
    var anns := AnnotatedLines(ls, resolve);
    LinesAreOneLine(text);
    forall i | 0 <= i < |ls| ensures OneLine(anns[i]) {
      AnnotatedOneLine(ls[i], resolve);
    }
    LinesOfUnlines(anns);
    LinesOfPass(f, text);
    LinesOfPass(f, ann);
    var rs, rs' := Readings(f(text)), Readings(f(ann));
    forall i | 0 <= i < |ls|
      ensures rs[i] == ReadLine(f(ls[i])) && rs'[i] == ReadLine(f(AnnotatedLine(ls[i], resolve)))
      ensures Alike(rs[i], rs'[i])
    {
      PassOfCr(f, anns[i]);
      PassAlike(f, ls[i], resolve);
    }
  }

  lemma AnnotatedOneLine(line: string, resolve: Resolver)
    requires AllNeutral(resolve) && OneLine(line)
    ensures OneLine(AnnotatedLine(line, resolve))
  {
    hide FirstMatch;
  }

  // ----- the decoded text and its key -----

  /** What one parsed text keeps in the other: the frames, and the title and key unless the exception line
      was located. */
  ghost predicate SameCrash(kind: string, plain: Option<(string, seq<Frame>)>, located: Option<(string, seq<Frame>)>, moved: bool) {
    && plain.Some? && located.Some? && SameNames(plain.value.1, located.value.1)
    && (SignatureOf(kind, located).input == SignatureOf(kind, plain).input <==> !moved)
    && (!moved || KeyFrames(plain.value.1) != [] ==> SignatureOf(kind, located).title == SignatureOf(kind, plain).title)
  }

  lemma KeysCompared(kind: string, x: string, frames: seq<Frame>, y: string, frames': seq<Frame>, moved: bool)
    requires SameNames(frames, frames') && (!moved ==> x == y)
    requires var names := KeyFrames(frames);
      KeyText(kind, Exceptions.Normal(y), names) == KeyText(kind, Exceptions.Normal(x), names) <==> !moved
    ensures SameCrash(kind, Some((x, frames)), Some((y, frames')), moved)
  {
    hide Names, DropMachinery, Exceptions.Normal, SameNames, KeyText;
    SameNamesSameKey(frames, frames');
  }

  /** With scrubbing in between as well, symbolising keeps the reported section, its frames and the title,
      and keeps the key exactly if the reported exception line got no location. */
  lemma DecodedTransparent(f: string -> string, kind: string, text: string, resolve: Resolver) returns (e: nat, m: nat)
    requires Pass(f) && AllNeutral(resolve) && Untouched(f, resolve)
    ensures var ls, rs, rs' := Lines(text), Readings(f(text)), Readings(f(Annotated(text, resolve)));
      |ls| == |rs| == |rs'| &&
      match Result(rs)
      case Some((exception, frames)) =>
        && IsSection(rs, |rs|, e, m) && IsSection(rs', |rs|, e, m)
        && SameCrash(kind, Result(rs), Result(rs'), Location(ls[e], resolve).Some?)
      case None => Result(rs').None?
  {
    hide Lines, Readings, SameShape, Result, ReadLine, AnnotatedLine, AllNeutral, SameCrash, IsSection, FramesIn,
      Exceptions.Normal, SameNames, FirstMatch, Pass, Untouched, Annotated, KeyText, KeyFrames;
    var ls, rs, rs' := Lines(text), Readings(f(text)), Readings(f(Annotated(text, resolve)));
    PassShape(f, text, resolve);
    assert |rs| == |rs'| by { Lengths(rs, rs'); }
    e, m := SameSelection(rs, rs');
    if Result(rs).Some? {
      SectionHasMarker(rs, e, m);
      var frames, frames' := Result(rs).value.1, Result(rs').value.1;
      TextRead(f(ls[e]));
      TextRead(f(AnnotatedLine(ls[e], resolve)));
      PassKey(f, kind, ls[e], resolve, KeyFrames(frames));
      KeysCompared(kind, rs[e].text, frames, rs'[e].text, frames', Location(ls[e], resolve).Some?);
    }
  }

  lemma Lengths(rs: seq<Reading>, rs': seq<Reading>)
    requires SameShape(rs, rs')
    ensures |rs| == |rs'|
  {
  }

  lemma TextRead(raw: string)
    ensures ReadLine(raw).text == Printk.Strip(raw)
  {
  }

  /** Symbolising a text never changes which crash section is reported, which frames it has or how
      they count. The grouping key stays the same exactly when the exception line of that section got
      no location. */
  lemma SymbolizationTransparent(kind: string, text: string, resolve: Resolver) returns (e: nat, m: nat)
    requires AllNeutral(resolve)
    ensures var ls, rs, rs' := Lines(text), Readings(text), Readings(Annotated(text, resolve));
      |ls| == |rs| == |rs'| &&
      match Result(rs)
      case Some((exception, frames)) =>
        && IsSection(rs, |rs|, e, m) && IsSection(rs', |rs|, e, m)
        && SameCrash(kind, Result(rs), Result(rs'), Location(ls[e], resolve).Some?)
      case None => Result(rs').None?
  {
    hide Lines, Readings, Result, SameCrash, Annotated, FirstMatch, IsSection, Contains, AllNeutral;
    e, m := DecodedTransparent(s => s, kind, text, resolve);
  }

  /** The same for `scrub` itself, wherever the IP patterns cut. */
  lemma PipelineTransparent(w: char -> bool, ipv4: string -> seq<Scrub.Cell>, ipv6: string -> seq<Scrub.Cell>,
                            kind: string, text: string, resolve: Resolver) returns (e: nat, m: nat)
    requires Scrub.WordClass(w) && NoBlankWords(w) && Cuts(w, ipv4) && Cuts(w, ipv6)
    requires AllNeutral(resolve) && Untouched(s => Scrub.Scrub(w, ipv4, ipv6, s), resolve)
    ensures var ls, rs, rs' := Lines(text), Readings(Scrub.Scrub(w, ipv4, ipv6, text)),
                               Readings(Scrub.Scrub(w, ipv4, ipv6, Annotated(text, resolve)));
      |ls| == |rs| == |rs'| &&
      match Result(rs)
      case Some((exception, frames)) =>
        && IsSection(rs, |rs|, e, m) && IsSection(rs', |rs|, e, m)
        && SameCrash(kind, Result(rs), Result(rs'), Location(ls[e], resolve).Some?)
      case None => Result(rs').None?
  {
    hide Lines, Readings, Result, SameCrash, Annotated, Pass, Untouched, Scrub.Scrub, FirstMatch, AllNeutral, IsSection,
      Cuts, Scrub.WordClass;
    ScrubIsPass(w, ipv4, ipv6);
    e, m := DecodedTransparent(s => Scrub.Scrub(w, ipv4, ipv6, s), kind, text, resolve);
  }
}
