/** What the resolver is asked about a line, told by the line's characters. */
module Located {
  import opened Wrappers
  import opened Text
  import opened Annotate

  predicate SymbolChar(c: char) { '0' <= c <= '9' || 'a' <= c <= 'z' || 'A' <= c <= 'Z' || c == '_' || c == '.' }

  predicate ModuleChar(c: char) { '0' <= c <= '9' || 'a' <= c <= 'z' || 'A' <= c <= 'Z' || c == '_' || c == '-' }

  predicate HexChar(c: char) { '0' <= c <= '9' || 'a' <= c <= 'f' || 'A' <= c <= 'F' }

  /** A symbol on `i..j`, "+0x", digits up to `k`, "/0x" and digits up to `e`. */
  predicate Piece(line: string, i: nat, j: nat, k: nat, e: nat) {
    && i < j && j + 3 < k && k + 3 < e <= |line|
    && (forall n :: i <= n < j ==> SymbolChar(line[n]))
    && line[j] == '+' && line[j + 1] == '0' && line[j + 2] == 'x'
    && (forall n :: j + 3 <= n < k ==> HexChar(line[n]))
    && line[k] == '/' && line[k + 1] == '0' && line[k + 2] == 'x'
    && (forall n :: k + 3 <= n < e ==> HexChar(line[n]))
  }

  ghost predicate PieceFrom(line: string, i: nat) { exists j: nat, k: nat, e: nat :: Piece(line, i, j, k, e) }

  // ----- numbers and their digits -----

  predicate DigitOf(v: nat, c: char)
    requires v < 16
  {
    c == "0123456789abcdef"[v] || c == "0123456789ABCDEF"[v]
  }

  /** The digits write the number, with any leading zeros. */
  predicate Numeral(n: nat, digits: string) {
    if digits == "" then n == 0
    else DigitOf(n % 16, digits[|digits| - 1]) && Numeral(n / 16, digits[..|digits| - 1])
  }

  lemma DigitValue(v: nat, c: char)
    requires v < 16 && DigitOf(v, c)
    ensures HexDigit(c) == v
  {
  }

  lemma {:induction false} NumeralValue(n: nat, digits: string)
    requires Numeral(n, digits)
    ensures HexValue(digits) == n
  {
    hide DigitOf, HexDigit;
    if digits != "" {
      NumeralValue(n / 16, digits[..|digits| - 1]);
      DigitValue(n % 16, digits[|digits| - 1]);
    }
  }

  /** `resolve` is asked for offsets of 64 bits, and for 0 beyond them. */
  function Asked(n: nat): nat { if n < 0x1_0000_0000_0000_0000 then n else 0 }

  // ----- the module behind a frame -----

  /** Blanks and a name in brackets. */
  predicate InBrackets(rest: string, sp: string, name: string, tail: string) {
    && rest == sp + "[" + name + "]" + tail && sp != "" && AllSpace(sp)
    && name != "" && forall n :: 0 <= n < |name| ==> ModuleChar(name[n])
  }

  ghost predicate ModuleIs(rest: string, m: Option<string>) {
    match m
    case Some(name) => exists sp, tail :: InBrackets(rest, sp, name, tail)
    case None => forall sp, name, tail :: !InBrackets(rest, sp, name, tail)
  }

  lemma ModuleFound(line: string, i: nat)
    requires i <= |line| && ModuleAt(line, i).Some?
    ensures ModuleIs(line[i..], ModuleAt(line, i))
  {
    hide RunEnd, IsSpace;
    var rest := line[i..];
    var j := RunEnd(line, i, IsSpace);
    var k := RunEnd(line, j + 1, IsModuleChar);
    RunChars(line, i, IsSpace);
    RunChars(line, j + 1, IsModuleChar);
    var sp, name, tail := line[i..j], line[j + 1..k], line[k + 1..];
    assert rest == sp + "[" + name + "]" + tail;
    assert InBrackets(rest, sp, name, tail);
  }

  lemma InBracketsAt(line: string, i: nat, sp: string, name: string, tail: string)
    requires i <= |line| && InBrackets(line[i..], sp, name, tail)
    ensures var j := i + |sp|; var k := j + 1 + |name|;
      && i < j && j + 1 < k < |line| && line[j] == '[' && line[k] == ']' && line[j + 1..k] == name
      && (forall n :: i <= n < j ==> IsSpace(line[n]))
      && forall n :: j + 1 <= n < k ==> IsModuleChar(line[n])
  {
    hide IsSpace;
    var rest := line[i..];
    var j := i + |sp|;
    var k := j + 1 + |name|;
    assert forall n :: 0 <= n < |rest| ==> line[i + n] == rest[n];
    assert forall n :: i <= n < j ==> line[n] == sp[n - i];
    assert forall n :: j + 1 <= n < k ==> line[n] == name[n - j - 1];
    assert line[j + 1..k] == name;
  }

  lemma Brackets()
    ensures !IsSpace('[') && !IsModuleChar(']')
  {
  }

  lemma ModuleMatches(line: string, i: nat, sp: string, name: string, tail: string)
    requires i <= |line| && InBrackets(line[i..], sp, name, tail)
    ensures ModuleAt(line, i) == Some(name)
  {
    hide RunEnd, IsSpace, IsModuleChar, InBrackets;
    Brackets();
    InBracketsAt(line, i, sp, name, tail);
    var j := i + |sp|;
    RunIs(line, i, IsSpace, j);
    RunIs(line, j + 1, IsModuleChar, j + 1 + |name|);
  }

  lemma ModuleOf(line: string, i: nat, m: Option<string>)
    requires i <= |line| && ModuleIs(line[i..], m)
    ensures ModuleAt(line, i) == m
  {
    hide ModuleAt, InBrackets;
    match m
    case Some(name) =>
      var sp, tail :| InBrackets(line[i..], sp, name, tail);
      ModuleMatches(line, i, sp, name, tail);
    case None =>
      if ModuleAt(line, i).Some? {
        ModuleFound(line, i);
      }
  }

  // ----- the pattern -----

  lemma PieceMatches(line: string, i: nat, j: nat, k: nat, e: nat)
    requires Piece(line, i, j, k, e) && (e < |line| ==> !HexChar(line[e]))
    ensures MatchAt(line, i) == Some(Capture(line[i..j], line[j + 3..k], ModuleAt(line, e)))
  {
    hide RunEnd, ModuleAt, Find;
    assert OccursAt(line, OFFSET, j) by { assert line[j..j + 3] == OFFSET; }
    assert OccursAt(line, "/0x", k) by { assert line[k..k + 3] == "/0x"; }
    Found(line, j);
    RunIs(line, i, IsSymbolChar, j);
    RunIs(line, j + 3, IsHexDigit, k);
    RunIs(line, k + 3, IsHexDigit, e);
  }

  lemma Found(line: string, j: nat)
    requires OccursAt(line, OFFSET, j)
    ensures Contains(line, OFFSET)
  {
  }

  lemma {:induction false} Longest(line: string, i: nat, j: nat, k: nat, e: nat) returns (e': nat)
    requires Piece(line, i, j, k, e)
    ensures Piece(line, i, j, k, e') && (e' < |line| ==> !HexChar(line[e']))
    decreases |line| - e
  {
    e' := e;
    if e < |line| && HexChar(line[e]) {
      e' := Longest(line, i, j, k, e + 1);
    }
  }

  lemma MatchIsPiece(line: string, i: nat)
    requires i <= |line|
    ensures MatchAt(line, i).Some? <==> PieceFrom(line, i)
  {
    hide RunEnd, ModuleAt, Find, Piece;
    if MatchAt(line, i).Some? {
      PieceOfMatch(line, i);
    }
    if PieceFrom(line, i) {
      var j: nat, k: nat, e: nat :| Piece(line, i, j, k, e);
      InLine(line, i, j, k, e);
      e := Longest(line, i, j, k, e);
      PieceMatches(line, i, j, k, e);
    }
  }

  lemma PieceOfMatch(line: string, i: nat)
    requires i <= |line| && MatchAt(line, i).Some?
    ensures PieceFrom(line, i)
  {
    hide RunEnd, ModuleAt, Find;
    var j := RunEnd(line, i, IsSymbolChar);
    var k := RunEnd(line, j + 3, IsHexDigit);
    var e := RunEnd(line, k + 3, IsHexDigit);
    RunChars(line, i, IsSymbolChar);
    RunChars(line, j + 3, IsHexDigit);
    RunChars(line, k + 3, IsHexDigit);
    Three(line, OFFSET, j);
    Three(line, "/0x", k);
    assert Piece(line, i, j, k, e);
  }

  lemma Three(line: string, p: string, j: nat)
    requires |p| == 3 && OccursAt(line, p, j)
    ensures line[j] == p[0] && line[j + 1] == p[1] && line[j + 2] == p[2]
  {
    OccursChar(line, p, j, 0);
    OccursChar(line, p, j, 1);
    OccursChar(line, p, j, 2);
  }

  lemma {:induction false} FirstIs(line: string, i: nat, from: nat)
    requires from <= i <= |line| && MatchAt(line, i).Some? && forall n :: from <= n < i ==> MatchAt(line, n).None?
    ensures FirstMatch(line, from) == MatchAt(line, i)
    decreases i - from
  {
    hide MatchAt;
    if from < i {
      FirstIs(line, i, from + 1);
    }
  }

  lemma {:induction false} NoneFrom(line: string, from: nat)
    requires from <= |line| && forall n :: from <= n <= |line| ==> MatchAt(line, n).None?
    ensures FirstMatch(line, from) == None
    decreases |line| - from
  {
    hide MatchAt;
    if from < |line| {
      NoneFrom(line, from + 1);
    }
  }

  // ----- lines and texts -----

  /** A line cut at its first piece, the digits behind "/0x" as many as there are. */
  ghost predicate Cut(line: string, pre: string, sym: string, d: string, s: string, rest: string) {
    && line == pre + sym + "+0x" + d + "/0x" + s + rest
    && sym != "" && (forall n :: 0 <= n < |sym| ==> SymbolChar(sym[n]))
    && d != "" && (forall n :: 0 <= n < |d| ==> HexChar(d[n]))
    && s != "" && (forall n :: 0 <= n < |s| ==> HexChar(s[n])) && (rest != "" ==> !HexChar(rest[0]))
    && forall i :: 0 <= i < |pre| ==> !PieceFrom(line, i)
  }

  lemma CutPiece(line: string, pre: string, sym: string, d: string, s: string, rest: string)
    requires Cut(line, pre, sym, d, s, rest)
    ensures var i := |pre|; var j := i + |sym|; var k := j + 3 + |d|; var e := k + 3 + |s|;
      && Piece(line, i, j, k, e) && (e < |line| ==> !HexChar(line[e]))
      && line[i..j] == sym && line[j + 3..k] == d && line[e..] == rest
  {
    hide PieceFrom;
    var i := |pre|; var j := i + |sym|; var k := j + 3 + |d|; var e := k + 3 + |s|;
    assert line[i..j] == sym && line[j + 3..k] == d && line[k + 3..e] == s && line[e..] == rest;
    assert forall n :: i <= n < j ==> line[n] == sym[n - i];
    assert forall n :: j + 3 <= n < k ==> line[n] == d[n - j - 3];
    assert forall n :: k + 3 <= n < e ==> line[n] == s[n - k - 3];
    assert line[j..j + 3] == "+0x" && line[k..k + 3] == "/0x";
    assert e < |line| ==> line[e] == rest[0];
    assert line[j..j + 3][0] == '+' && line[j..j + 3][1] == '0' && line[j..j + 3][2] == 'x';
    assert line[k..k + 3][0] == '/' && line[k..k + 3][1] == '0' && line[k..k + 3][2] == 'x';
  }

  lemma LocationOfCut(line: string, pre: string, sym: string, d: string, s: string, rest: string, n: nat, m: Option<string>, resolve: Resolver)
    requires Cut(line, pre, sym, d, s, rest) && Numeral(n, d) && ModuleIs(rest, m)
    ensures Location(line, resolve) == resolve(sym, Asked(n), m)
  {
    hide Piece, MatchAt, ModuleAt, Numeral, HexValue, ModuleIs, PieceFrom, HexChar, SymbolChar;
    CutPiece(line, pre, sym, d, s, rest);
    var i := |pre|; var j := i + |sym|; var k := j + 3 + |d|; var e := k + 3 + |s|;
    PieceMatches(line, i, j, k, e);
    InLine(line, i, j, k, e);
    ModuleOf(line, e, m);
    NumeralValue(n, d);
    forall b | 0 <= b < i ensures MatchAt(line, b).None? {
      MatchIsPiece(line, b);
    }
    FirstIs(line, i, 0);
  }

  lemma InLine(line: string, i: nat, j: nat, k: nat, e: nat)
    requires Piece(line, i, j, k, e)
    ensures i < j < k < e <= |line|
  {
  }

  lemma LocationOfNone(line: string, resolve: Resolver)
    requires forall i :: 0 <= i <= |line| ==> !PieceFrom(line, i)
    ensures Location(line, resolve) == None
  {
    hide MatchAt, PieceFrom;
    forall i | 0 <= i <= |line| ensures MatchAt(line, i).None? {
      MatchIsPiece(line, i);
    }
    NoneFrom(line, 0);
  }

  lemma {:induction false} UnlinesConcat(a: seq<string>, b: seq<string>)
    ensures Unlines(a + b) == Unlines(a) + Unlines(b)
  {
    if a == [] {
      assert a + b == b;
    } else {
      assert (a + b)[0] == a[0] && (a + b)[1..] == a[1..] + b;
      UnlinesConcat(a[1..], b);
      Assoc(a[0] + "\n", Unlines(a[1..]), Unlines(b));
    }
  }

  predicate EndsLine(a: string) { a == "" || a[|a| - 1] == '\n' }

  lemma LinesOfMiddle(a: string, raw: string, b: string)
    requires EndsLine(a) && OneLine(raw)
    ensures Lines(a + raw + "\n" + b) == Lines(a) + ([StripCr(raw)] + Lines(b))
  {
    hide Lines, OneLine;
    assert a + raw + "\n" + b == a + (raw + "\n" + b);
    LinesOfConcat(a, raw + "\n" + b);
    LinesOfOne(raw, b);
  }

  lemma AnnotatedConcat(la: seq<string>, lb: seq<string>, resolve: Resolver)
    ensures Unlines(AnnotatedLines(la + lb, resolve)) == Unlines(AnnotatedLines(la, resolve)) + Unlines(AnnotatedLines(lb, resolve))
  {
    hide Unlines, AnnotatedLine;
    assert AnnotatedLines(la + lb, resolve) == AnnotatedLines(la, resolve) + AnnotatedLines(lb, resolve);
    UnlinesConcat(AnnotatedLines(la, resolve), AnnotatedLines(lb, resolve));
  }

  lemma LoneLine(line: string, resolve: Resolver)
    ensures Unlines(AnnotatedLines([line], resolve)) == AnnotatedLine(line, resolve) + "\n"
  {
    hide AnnotatedLine;
    assert AnnotatedLines([line], resolve) == [AnnotatedLine(line, resolve)];
  }

  /** A text is annotated line by line, and its lines end in "\n" then. */
  lemma LineByLine(a: string, line: string, eol: string, b: string, resolve: Resolver)
    requires EndsLine(a) && OneLine(line) && (line == "" || line[|line| - 1] != '\r') && (eol == "\n" || eol == "\r\n")
    ensures Annotated(a + line + eol + b, resolve) ==
            Annotated(a, resolve) + AnnotatedLine(line, resolve) + "\n" + Annotated(b, resolve)
  {
    hide Lines, Unlines, AnnotatedLine, AnnotatedLines, EndsLine;
    var raw := RawLine(line, eol);
    assert a + line + eol + b == a + raw + "\n" + b by { Assoc(a, line, eol); Assoc(a, raw, "\n"); }
    LinesOfMiddle(a, raw, b);
    AnnotatedConcat(Lines(a), [line] + Lines(b), resolve);
    AnnotatedConcat([line], Lines(b), resolve);
    LoneLine(line, resolve);
    var x, l, y := Annotated(a, resolve), AnnotatedLine(line, resolve), Annotated(b, resolve);
    Assoc(x, l + "\n", y);
    Assoc(x, l, "\n");
  }

  lemma RawLine(line: string, eol: string) returns (raw: string)
    requires OneLine(line) && (line == "" || line[|line| - 1] != '\r') && (eol == "\n" || eol == "\r\n")
    ensures OneLine(raw) && StripCr(raw) == line && line + eol == raw + "\n"
  {
    raw := if eol == "\n" then line else line + "\r";
    assert "\r\n" == "\r" + "\n";
    assert line + "\r" + "\n" == line + ("\r" + "\n");
  }

  /** Every line with a piece in it has its first one, with all the digits there are. */
  lemma CutExists(line: string, i: nat) returns (pre: string, sym: string, d: string, s: string, rest: string)
    requires PieceFrom(line, i)
    ensures Cut(line, pre, sym, d, s, rest)
    decreases i
  {
    if n: nat :| n < i && PieceFrom(line, n) {
      pre, sym, d, s, rest := CutExists(line, n);
    } else {
      var j: nat, k: nat, e: nat :| Piece(line, i, j, k, e);
      InLine(line, i, j, k, e);
      e := Longest(line, i, j, k, e);
      pre, sym, d, s, rest := line[..i], line[i..j], line[j + 3..k], line[k + 3..e], line[e..];
      CutOfPiece(line, i, j, k, e);
    }
  }

  lemma CutOfPiece(line: string, i: nat, j: nat, k: nat, e: nat)
    requires Piece(line, i, j, k, e) && (e < |line| ==> !HexChar(line[e])) && forall n: nat :: n < i ==> !PieceFrom(line, n)
    ensures Cut(line, line[..i], line[i..j], line[j + 3..k], line[k + 3..e], line[e..])
  {
    hide PieceFrom;
    assert line[j..j + 3] == "+0x" && line[k..k + 3] == "/0x";
    assert line == line[..i] + line[i..j] + line[j..j + 3] + line[j + 3..k] + line[k..k + 3] + line[k + 3..e] + line[e..];
  }

  /** The line of a text whose first piece is a symbol, an offset `n` and a size gets the answer for this symbol,
      this offset and the bracketed module behind the size, if there is one. */
  lemma FrameLocated(a: string, line: string, eol: string, b: string, pre: string, sym: string, d: string, s: string, rest: string,
                     n: nat, m: Option<string>, resolve: Resolver)
    requires EndsLine(a) && OneLine(line) && (line == "" || line[|line| - 1] != '\r') && (eol == "\n" || eol == "\r\n")
    requires Cut(line, pre, sym, d, s, rest) && Numeral(n, d) && ModuleIs(rest, m)
    ensures var out := match resolve(sym, Asked(n), m) case Some(loc) => line + " (" + loc + ")" case None => line;
      Annotated(a + line + eol + b, resolve) == Annotated(a, resolve) + out + "\n" + Annotated(b, resolve)
  {
    hide Annotated, Location, Cut, Numeral, ModuleIs, OneLine, EndsLine;
    LineByLine(a, line, eol, b, resolve);
    LocationOfCut(line, pre, sym, d, s, rest, n, m, resolve);
  }

  /** A line without such a piece stays as it is. */
  lemma OtherLineStays(a: string, line: string, eol: string, b: string, resolve: Resolver)
    requires EndsLine(a) && OneLine(line) && (line == "" || line[|line| - 1] != '\r') && (eol == "\n" || eol == "\r\n")
    requires forall i :: 0 <= i <= |line| ==> !PieceFrom(line, i)
    ensures Annotated(a + line + eol + b, resolve) == Annotated(a, resolve) + line + "\n" + Annotated(b, resolve)
  {
    hide Annotated, Location, OneLine, EndsLine, PieceFrom;
    LineByLine(a, line, eol, b, resolve);
    LocationOfNone(line, resolve);
  }
}
