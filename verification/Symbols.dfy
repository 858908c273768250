/** Symbol normalisation: `normalize_symbol` and its cutting rules. */
module Symbols {
  import opened Wrappers
  import opened Text

  const SUFFIXES: seq<string> := ["constprop", "isra", "part", "cold", "lto"]
  const PATTERNS: seq<string> := [OFFSET, ".constprop", ".isra", ".part", ".cold", ".lto"]

  predicate AnyAt(s: string, ps: seq<string>, i: int) {
    exists k :: 0 <= k < |ps| && OccursAt(s, ps[k], i)
  }

  /** The least position at which one of the patterns occurs, or the length. */
  function Earliest(s: string, ps: seq<string>, from: nat): (e: nat)
    requires from <= |s|
    ensures from <= e <= |s|
    ensures e < |s| ==> AnyAt(s, ps, e)
    ensures forall j :: from <= j < e ==> !AnyAt(s, ps, j)
    decreases |s| - from
  {
    if from == |s| || AnyAt(s, ps, from) then from else Earliest(s, ps, from + 1)
  }

  function CutAt(s: string, ps: seq<string>): string { s[..Earliest(s, ps, 0)] }

  function CutFirst(out: string, p: string): string {
    match Find(out, p)
    case None => out
    case Some(pos) => out[..pos]
  }

  /** The normalised symbol: the trimmed name up to the first offset or compiler suffix. */
  function Normal(symbol: string): string { CutAt(Trim(symbol), PATTERNS) }

  /** No pattern can start strictly inside another one. */
  ghost predicate Separated(ps: seq<string>) {
    && (forall k :: 0 <= k < |ps| ==> ps[k] != "")
    && forall k, l, i :: 0 <= k < |ps| && 0 <= l < |ps| && 0 < i < |ps[k]| ==> ps[k][i] != ps[l][0]
  }

  lemma PatternsSeparated()
    ensures Separated(PATTERNS)
  {
  }

  /** Two occurrences cannot overlap when the later one's first character is not inside the earlier one. */
  lemma Disjoint(t: string, p: string, j: nat, q: string, e: nat)
    requires OccursAt(t, p, j) && OccursAt(t, q, e) && q != "" && j < e
    requires forall i :: 0 < i < |p| ==> p[i] != q[0]
    ensures j + |p| <= e
  {
    OccursChar(t, q, e, 0);
    if e < j + |p| {
      OccursChar(t, p, j, e - j);
    }
  }

  lemma AnyAtOneMore(t: string, ps: seq<string>, p: string, j: int)
    ensures AnyAt(t, ps + [p], j) <==> AnyAt(t, ps, j) || OccursAt(t, p, j)
  {
    var qs := ps + [p];
    assert qs[|ps|] == p;
    if AnyAt(t, ps, j) {
      var k :| 0 <= k < |ps| && OccursAt(t, ps[k], j);
      assert qs[k] == ps[k];
    }
  }

  /** Cutting at the first `p` inside an earlier cut is one cut for the larger set. */
  lemma CutOnce(t: string, ps: seq<string>, p: string)
    requires Separated(ps + [p])
    ensures CutAt(t, ps + [p]) == CutFirst(CutAt(t, ps), p)
  {
    var qs := ps + [p];
    assert qs[|ps|] == p;
    var e, f := Earliest(t, ps, 0), Earliest(t, qs, 0);
    var out := t[..e];
    assert out + t[e..] == t;
    forall j | 0 <= j < e
      ensures AnyAt(t, qs, j) <==> OccursAt(out, p, j)
    {
      AnyAtOneMore(t, ps, p, j);
      OccursInPart(out, t[e..], p, j);
      if OccursAt(t, p, j) && e < |t| {
        var k :| 0 <= k < |ps| && OccursAt(t, ps[k], e);
        assert qs[k] == ps[k];
        Disjoint(t, p, j, ps[k], e);
      }
    }
    AnyAtOneMore(t, ps, p, e);
  }

  /** The cuts in sequence, each inside what the previous ones left. */
  function CutInTurn(t: string, ps: seq<string>): string {
    if ps == [] then t
    else CutFirst(CutInTurn(t, ps[..|ps| - 1]), ps[|ps| - 1])
  }

  lemma {:induction false} CutsAreOneCut(t: string, ps: seq<string>)
    requires Separated(ps)
    ensures CutInTurn(t, ps) == CutAt(t, ps)
  {
    if ps != [] {
      var init := ps[..|ps| - 1];
      assert ps == init + [ps[|ps| - 1]];
      CutsAreOneCut(t, init);
      CutOnce(t, init, ps[|ps| - 1]);
    }
  }

  /** The order in which the patterns are cut does not matter. */
  lemma CutOrderIrrelevant(t: string, ps: seq<string>, qs: seq<string>)
    requires Separated(ps) && Separated(qs)
    requires forall p :: p in ps <==> p in qs
    ensures CutInTurn(t, ps) == CutInTurn(t, qs)
  {
    CutsAreOneCut(t, ps);
    CutsAreOneCut(t, qs);
    forall i ensures AnyAt(t, ps, i) <==> AnyAt(t, qs, i) {
      if AnyAt(t, ps, i) {
        var k :| 0 <= k < |ps| && OccursAt(t, ps[k], i);
        assert ps[k] in qs;
      }
      if AnyAt(t, qs, i) {
        var k :| 0 <= k < |qs| && OccursAt(t, qs[k], i);
        assert qs[k] in ps;
      }
    }
  }

  lemma SuffixPattern(i: nat)
    requires i < |SUFFIXES|
    ensures "." + SUFFIXES[i] == PATTERNS[i + 1]
  {
    assert "." + "constprop" == ".constprop";
    assert "." + "isra" == ".isra";
    assert "." + "part" == ".part";
    assert "." + "cold" == ".cold";
    assert "." + "lto" == ".lto";
  }

  /** The text cut at the first `k` patterns. */
  function CutTo(t: string, k: nat): string
    requires k <= |PATTERNS|
  {
    CutAt(t, PATTERNS[..k])
  }

  lemma CutToEnds(t: string)
    ensures CutTo(t, 0) == t && CutTo(t, |PATTERNS|) == CutAt(t, PATTERNS)
  {
    assert PATTERNS[..|PATTERNS|] == PATTERNS;
  }

  /** One truncation of the code extends the set of patterns that are already cut. */
  lemma CutNext(t: string, k: nat, p: string)
    requires k < |PATTERNS| && p == PATTERNS[k]
    ensures CutFirst(CutTo(t, k), p) == CutTo(t, k + 1)
  {
    PatternsSeparated();
    assert PATTERNS[..k + 1] == PATTERNS[..k] + [PATTERNS[k]];
    CutOnce(t, PATTERNS[..k], PATTERNS[k]);
  }

  /** `normalize_symbol`: trim, cut the offset, then truncate at each compiler suffix in turn. */
  method NormalizeSymbol(symbol: string) returns (out: string)
    ensures out == Normal(symbol)
  {
    hide CutTo, Trim, Find;
    var s := Trim(symbol);
    ghost var t := s;
    CutToEnds(t);
    CutNext(t, 0, OFFSET);
    var pos := Find(s, OFFSET);
    if pos.Some? {
      s := s[..pos.value];
    }
    out := s;
    var i := 0;
    while i < |SUFFIXES|
      invariant 0 <= i <= |SUFFIXES|
      invariant out == CutTo(t, i + 1)
    {
      var pattern := "." + SUFFIXES[i];
      SuffixPattern(i);
      CutNext(t, i + 1, pattern);
      var at := Find(out, pattern);
      if at.Some? {
        out := out[..at.value];
      }
      i := i + 1;
    }
  }

  // ----- what the normal form ignores -----

  lemma OffsetOccurs(a: string, b: string)
    ensures OccursAt(a + OFFSET + b, OFFSET, |a|)
  {
    assert (a + OFFSET + b)[|a|..|a| + 3] == OFFSET;
  }

  lemma SolidEnds(h: string, c: string)
    ensures var u := h + OFFSET + c;
      && (h == "" || !IsSpace(h[0]) ==> !IsSpace(u[0]))
      && (c == "" || !IsSpace(c[|c| - 1]) ==> !IsSpace(u[|u| - 1]))
  {
    var u := h + OFFSET + c;
    assert u[0] == if h == "" then '+' else h[0];
    assert u[|u| - 1] == if c == "" then 'x' else c[|c| - 1];
  }

  /** Trimming a text with an offset in it touches only the two ends. */
  lemma TrimAroundOffset(a: string, b: string) returns (c: string)
    ensures Trim(a + OFFSET + b) == TrimStart(a) + OFFSET + c
  {
    hide TrimStart, TrimEnd, IsSpace;
    var h := TrimStart(a);
    var sp := a[..|a| - |h|];
    c := TrimEnd(b);
    var ep := b[|c|..];
    TrimStartParts(a);
    TrimEndParts(b);
    assert a == sp + h && b == c + ep;
    SolidEnds(h, b);
    SolidEnds(h, c);
    Regroup("", sp, h, OFFSET, b);
    assert "" + sp == sp;
    TrimStartIs(sp, h + OFFSET + b);
    Assoc(h + OFFSET, c, ep);
    TrimEndIs(h + OFFSET + c, ep);
  }

  /** The first offset of a text and everything before it decide the cut. */
  lemma CutBeforeOffset(a: string, b: string)
    ensures CutAt(a + OFFSET + b, PATTERNS) == CutAt(a, PATTERNS)
  {
    PatternsSeparated();
    var s := a + OFFSET + b;
    OffsetOccurs(a, b);
    assert AnyAt(s, PATTERNS, |a|) by { assert PATTERNS[0] == OFFSET; }
    assert s == a + (OFFSET + b);
    forall j | 0 <= j < |a| ensures AnyAt(s, PATTERNS, j) <==> AnyAt(a, PATTERNS, j) {
      forall k | 0 <= k < |PATTERNS| ensures OccursAt(s, PATTERNS[k], j) <==> OccursAt(a, PATTERNS[k], j) {
        OccursInPart(a, OFFSET + b, PATTERNS[k], j);
        if OccursAt(s, PATTERNS[k], j) {
          Disjoint(s, PATTERNS[k], j, PATTERNS[0], |a|);
        }
      }
    }
    var e, f := Earliest(s, PATTERNS, 0), Earliest(a, PATTERNS, 0);
    assert e == f;
    assert s[..e] == a[..e];
  }

  /** Everything after an offset marker is ignored: other offsets, sizes or trailing text change nothing. */
  lemma OffsetIgnored(a: string, b: string, c: string)
    ensures Normal(a + OFFSET + b) == Normal(a + OFFSET + c)
  {
    var b' := TrimAroundOffset(a, b);
    var c' := TrimAroundOffset(a, c);
    CutBeforeOffset(TrimStart(a), b');
    CutBeforeOffset(TrimStart(a), c');
  }

  lemma AnyInPart(t: string, n: nat, ps: seq<string>, j: nat)
    requires n <= |t| && AnyAt(t[..n], ps, j)
    ensures AnyAt(t, ps, j) && j <= n
  {
    var k :| 0 <= k < |ps| && OccursAt(t[..n], ps[k], j);
    assert t == t[..n] + t[n..];
    OccursInPart(t[..n], t[n..], ps[k], j);
  }

  /** A prefix of a cut text holds no pattern any more. */
  lemma NothingLeft(t: string, n: nat)
    requires n <= Earliest(t, PATTERNS, 0)
    ensures CutAt(t[..n], PATTERNS) == t[..n]
  {
    hide AnyAt;
    forall j: nat | j < n ensures !AnyAt(t[..n], PATTERNS, j) {
      if AnyAt(t[..n], PATTERNS, j) {
        AnyInPart(t, n, PATTERNS, j);
      }
    }
  }

  lemma TrimOfPrefix(u: string, n: nat)
    requires n <= |u| && (u == "" || !IsSpace(u[0]))
    ensures Trim(u[..n]) == TrimEnd(u[..n])
  {
    hide TrimStart, TrimEnd, IsSpace;
    TrimStartIs("", u[..n]);
    assert "" + u[..n] == u[..n];
  }

  /** Normalising twice is normalising once and trimming the end. */
  lemma NormalTwice(symbol: string)
    ensures Normal(Normal(symbol)) == TrimEnd(Normal(symbol))
  {
    hide TrimStart, TrimEnd, IsSpace, Earliest;
    var u := TrimStart(symbol);
    var t := TrimEnd(u);
    var e := Earliest(t, PATTERNS, 0);
    var x := t[..e];
    TrimEndParts(u);
    assert x == u[..e];
    TrimOfPrefix(u, e);
    var n := |TrimEnd(x)|;
    TrimEndParts(x);
    assert TrimEnd(x) == t[..n];
    NothingLeft(t, n);
  }

  /** So one pass is stable exactly if the character before the earliest pattern of the trimmed symbol is
      not a space. */
  lemma NormalIdempotentIff(symbol: string)
    ensures var t := Trim(symbol); var e := Earliest(t, PATTERNS, 0);
      Normal(Normal(symbol)) == Normal(symbol) <==> (e == 0 || !IsSpace(t[e - 1]))
  {
    hide Trim, Earliest, IsSpace;
    NormalTwice(symbol);
    TrimEndKeepsIff(Normal(symbol));
  }

  lemma TrimEndKeepsIff(x: string)
    ensures TrimEnd(x) == x <==> x == "" || !IsSpace(x[|x| - 1])
  {
    hide IsSpace;
  }

  lemma NoPatternIn(s: string, k: nat)
    requires k <= |s| && forall i, p :: 0 <= i < k && p in PATTERNS ==> !OccursAt(s, p, i)
    ensures forall i :: 0 <= i < k ==> !AnyAt(s, PATTERNS, i)
  {
  }

  lemma SpacedText(s: string)
    requires s == "f .cold"
    ensures Trim(s) == s && CutAt(s, PATTERNS) == "f "
  {
    hide TrimStart, TrimEnd, Earliest;
    TrimStartIs("", s);
    TrimEndIs(s, "");
    assert "" + s == s && s + "" == s;
    assert OccursAt(s, PATTERNS[4], 2) by { assert s[2..7] == ".cold"; }
    assert AnyAt(s, PATTERNS, 2);
    forall i, p | 0 <= i < 2 && p in PATTERNS ensures !OccursAt(s, p, i) {
      assert p[0] == '+' || p[0] == '.';
      if OccursAt(s, p, i) { OccursChar(s, p, i, 0); }
    }
    NoPatternIn(s, 2);
  }

  lemma LoneLetter(s: string)
    requires s == "f "
    ensures Trim(s) == "f" && CutAt("f", PATTERNS) == "f"
  {
    hide TrimStart, TrimEnd, Earliest;
    TrimStartIs("", s);
    TrimEndIs("f", " ");
    assert "" + s == s && "f" + " " == s;
    NoPatternIn("f", 1);
  }

  /** A symbol with a blank before its suffix is one that is not. */
  lemma SpaceBeforeSuffix()
    ensures Normal("f .cold") == "f " && Normal("f ") == "f"
  {
    hide Trim, CutAt;
    SpacedText("f .cold");
    LoneLetter("f ");
  }

  // ----- the pieces that are cut off, one by one -----

  /** The six texts that end a name. */
  predicate EndsName(p: string) {
    p == "+0x" || p == ".constprop" || p == ".isra" || p == ".part" || p == ".cold" || p == ".lto"
  }

  ghost predicate Whole(s: string) { forall p, i :: EndsName(p) ==> !OccursAt(s, p, i) }

  lemma PatternsEndNames(p: string)
    ensures p in PATTERNS <==> EndsName(p)
  {
  }

  lemma WholeIsUncut(s: string)
    requires Whole(s)
    ensures forall i :: !AnyAt(s, PATTERNS, i)
  {
    hide OccursAt, EndsName;
    forall i ensures !AnyAt(s, PATTERNS, i) {
      if AnyAt(s, PATTERNS, i) {
        var k :| 0 <= k < |PATTERNS| && OccursAt(s, PATTERNS[k], i);
        PatternsEndNames(PATTERNS[k]);
      }
    }
  }

  /** A name without any of them is only trimmed. */
  lemma NameStays(s: string)
    requires Whole(Trim(s))
    ensures Normal(s) == Trim(s)
  {
    hide Trim, AnyAt, Whole;
    WholeIsUncut(Trim(s));
  }

  lemma FirstPattern(a: string, p: string, c: string)
    requires Whole(a) && EndsName(p)
    ensures CutAt(a + p + c, PATTERNS) == a
  {
    var s := a + p + c;
    assert s == a + (p + c);
    PatternsEndNames(p);
    PatternsSeparated();
    assert OccursAt(s, p, |a|) by { assert s[|a|..|a| + |p|] == p; }
    var k :| 0 <= k < |PATTERNS| && PATTERNS[k] == p;
    assert AnyAt(s, PATTERNS, |a|);
    WholeIsUncut(a);
    hide EndsName, Whole;
    forall j | 0 <= j < |a| ensures !AnyAt(s, PATTERNS, j) {
      if AnyAt(s, PATTERNS, j) {
        var l :| 0 <= l < |PATTERNS| && OccursAt(s, PATTERNS[l], j);
        Disjoint(s, PATTERNS[l], j, p, |a|);
        OccursInPart(a, p + c, PATTERNS[l], j);
        assert false;
      }
    }
    assert s[..|a|] == a;
  }

  lemma EndsSolid(p: string)
    requires EndsName(p)
    ensures p != "" && !IsSpace(p[0]) && !IsSpace(p[|p| - 1])
  {
  }

  /** A name is cut at the first of them, whatever follows. */
  lemma NameCut(sp: string, a: string, p: string, b: string)
    requires AllSpace(sp) && (a != "" ==> !IsSpace(a[0])) && Whole(a) && EndsName(p)
    ensures Normal(sp + a + p + b) == a
  {
    hide IsSpace, TrimStart, TrimEnd, EndsName, Whole, CutAt;
    EndsSolid(p);
    var c := TrimEnd(b);
    TrimEndParts(b);
    var u := a + p + b;
    assert sp + a + p + b == sp + u;
    assert u[0] == if a == "" then p[0] else a[0];
    TrimStartIs(sp, u);
    var t := a + p + c;
    assert t[|t| - 1] == if c == "" then p[|p| - 1] else c[|c| - 1];
    assert u == t + b[|c|..];
    TrimEndIs(t, b[|c|..]);
    FirstPattern(a, p, c);
  }
}
