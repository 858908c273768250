/** What scrubbing leaves alone: blanks, line ends and offsets. */
module ScrubPass {
  import opened Text
  import opened Scrub

  predicate Blank(c: char) { c == ' ' || c == '\n' || c == '\r' }

  ghost predicate NoBlankWords(w: char -> bool) { !w(' ') && !w('\n') && !w('\r') }

  /** A rewriting of text that works on each blank-free piece alone, empties and splits nothing, and spares
      every offset mark. */
  ghost predicate Pass(f: string -> string) {
    && (forall a, c, b :: Blank(c) ==> f(a + [c] + b) == f(a) + [c] + f(b))
    && (forall s :: f(s) == "" <==> s == "")
    && (forall s :: OneLine(s) ==> OneLine(f(s)))
    && forall s :: Contains(s, OFFSET) ==> Contains(f(s), OFFSET)
  }

  lemma PassThenPass(f: string -> string, g: string -> string, h: string -> string)
    requires Pass(f) && Pass(g) && forall s :: h(s) == g(f(s))
    ensures Pass(h)
  {
    hide Contains, OneLine;
  }

  lemma Occurs(s: string, p: string, i: nat)
    requires OccursAt(s, p, i)
    ensures Contains(s, p)
  {
  }

  lemma OffsetAt(s: string, i: nat)
    requires i + 2 < |s|
    ensures OccursAt(s, OFFSET, i) <==> s[i] == '+' && s[i + 1] == '0' && s[i + 2] == 'x'
  {
    if s[i] == '+' && s[i + 1] == '0' && s[i + 2] == 'x' {
      assert s[i..i + 3] == OFFSET;
    }
    if OccursAt(s, OFFSET, i) {
      OccursChar(s, OFFSET, i, 0);
      OccursChar(s, OFFSET, i, 1);
      OccursChar(s, OFFSET, i, 2);
    }
  }

  // ----- the MAC pass -----

  /** Before a blank a match is one of the text before it. */
  lemma MacBeforeBlank(w: char -> bool, a: string, c: char, b: string, i: nat)
    requires NoBlankWords(w) && Blank(c) && i <= |a|
    ensures MacAt(w, a + [c] + b, i) <==> MacAt(w, a, i)
  {
    var s := a + [c] + b;
    assert s[|a|] == c;
    assert forall k :: 0 <= k < |a| ==> s[k] == a[k];
    assert !MacChar(s[|a|], |a| - i);
    if i + MAC_LEN <= |a| {
      assert MacChars(s, i) <==> MacChars(a, i);
    }
  }

  /** And behind it one of the text behind it. */
  lemma MacBehindBlank(w: char -> bool, a: string, c: char, b: string, j: nat)
    requires NoBlankWords(w) && Blank(c)
    ensures MacAt(w, a + [c] + b, |a| + 1 + j) <==> MacAt(w, b, j)
  {
    var s := a + [c] + b;
    assert s[|a|] == c;
    assert forall k :: 0 <= k < |b| ==> s[|a| + 1 + k] == b[k];
    if j + MAC_LEN <= |b| {
      if MacChars(s, |a| + 1 + j) {
        forall k: nat | j <= k < j + MAC_LEN ensures MacChar(b[k], k - j) { assert MacChar(s[|a| + 1 + k], k - j); }
      }
      if MacChars(b, j) {
        forall k: nat | |a| + 1 + j <= k < |a| + 1 + j + MAC_LEN ensures MacChar(s[k], k - |a| - 1 - j) {
          assert MacChar(b[k - |a| - 1], k - |a| - 1 - j);
        }
      }
    }
  }

  lemma {:induction false} PassBehindBlank(w: char -> bool, a: string, c: char, b: string, j: nat)
    requires NoBlankWords(w) && Blank(c) && j <= |b|
    ensures MacPass(w, a + [c] + b, |a| + 1 + j) == MacPass(w, b, j)
    decreases |b| - j
  {
    hide MacAt, Masked, MacPass;
    var s := a + [c] + b;
    MacBehindBlank(w, a, c, b, j);
    PassStep(w, s, |a| + 1 + j);
    PassStep(w, b, j);
    if j < |b| {
      assert s[|a| + 1 + j] == b[j];
      if MacAt(w, b, j) {
        InText(w, b, j);
        MaskedBehind(a, c, b, j);
        PassBehindBlank(w, a, c, b, j + MAC_LEN);
      } else {
        PassBehindBlank(w, a, c, b, j + 1);
      }
    }
  }

  lemma PassStep(w: char -> bool, s: string, i: nat)
    requires i <= |s|
    ensures MacPass(w, s, i) ==
      if i == |s| then "" else if MacAt(w, s, i) then Masked(s, i) + MacPass(w, s, i + MAC_LEN) else [s[i]] + MacPass(w, s, i + 1)
  {
    hide MacAt, Masked;
  }

  lemma MaskedBehind(a: string, c: char, b: string, j: nat)
    requires j + MAC_LEN <= |b|
    ensures Masked(a + [c] + b, |a| + 1 + j) == Masked(b, j)
  {
    assert (a + [c] + b)[|a| + 1 + j..|a| + 9 + j] == b[j..j + 8];
  }

  lemma InText(w: char -> bool, s: string, i: nat)
    requires MacAt(w, s, i)
    ensures i + MAC_LEN <= |s|
  {
  }

  lemma {:induction false} MacPassLocal(w: char -> bool, a: string, c: char, b: string, i: nat)
    requires NoBlankWords(w) && Blank(c) && i <= |a|
    ensures MacPass(w, a + [c] + b, i) == MacPass(w, a, i) + [c] + MacPass(w, b, 0)
    decreases |a| - i
  {
    hide MacAt, Masked, MacPass;
    var s := a + [c] + b;
    MacBeforeBlank(w, a, c, b, i);
    PassStep(w, s, i);
    PassStep(w, a, i);
    if i == |a| {
      assert s[i] == c;
      NotAtEnd(w, a);
      PassBehindBlank(w, a, c, b, 0);
    } else if MacAt(w, a, i) {
      InText(w, a, i);
      MaskedBefore(a, c, b, i);
      MacPassLocal(w, a, c, b, i + MAC_LEN);
      Joined(Masked(a, i), MacPass(w, a, i + MAC_LEN), [c], MacPass(w, b, 0));
    } else {
      assert s[i] == a[i];
      MacPassLocal(w, a, c, b, i + 1);
      Joined([a[i]], MacPass(w, a, i + 1), [c], MacPass(w, b, 0));
    }
  }

  lemma MaskedBefore(a: string, c: char, b: string, i: nat)
    requires i + MAC_LEN <= |a|
    ensures Masked(a + [c] + b, i) == Masked(a, i)
  {
    assert (a + [c] + b)[i..i + 8] == a[i..i + 8];
  }

  lemma NotAtEnd(w: char -> bool, a: string)
    ensures !MacAt(w, a, |a|)
  {
  }

  lemma Joined<T>(a: seq<T>, b: seq<T>, c: seq<T>, d: seq<T>)
    ensures a + (b + c + d) == a + b + c + d
  {
  }

  /** The zero of an offset mark is in no match: the `x` behind it is no hex digit but a word character. */
  lemma OffsetUnmasked(w: char -> bool, s: string, i: nat)
    requires WordClass(w) && OccursAt(s, OFFSET, i)
    ensures PassAt(w, s, 0, i) == '+' && PassAt(w, s, 0, i + 1) == '0' && PassAt(w, s, 0, i + 2) == 'x'
  {
    hide PassAt, MacAt;
    OffsetAt(s, i);
    OnlyNicMasked(w, s, 0, i);
    OnlyNicMasked(w, s, 0, i + 1);
    OnlyNicMasked(w, s, 0, i + 2);
    if PassAt(w, s, 0, i + 1) != '0' {
      var m: nat :| m + 9 <= i + 1 < m + MAC_LEN && MacAt(w, s, m);
      NoMatchOverX(w, s, m, i + 1);
    }
  }

  /** No match has an `x` right behind one of its characters. */
  lemma NoMatchOverX(w: char -> bool, s: string, m: nat, k: nat)
    requires WordClass(w) && m <= k < m + MAC_LEN && k + 1 < |s| && s[k + 1] == 'x' && Text.IsHexDigit(s[k])
    ensures !MacAt(w, s, m)
  {
    assert !MacChar(s[k + 1], k + 1 - m);
  }

  lemma MacPassIsPass(w: char -> bool)
    requires WordClass(w) && NoBlankWords(w)
    ensures Pass(s => MacPass(w, s, 0))
  {
    hide MacPass, Contains;
    forall a, c, b | Blank(c) ensures MacPass(w, a + [c] + b, 0) == MacPass(w, a, 0) + [c] + MacPass(w, b, 0) {
      MacPassLocal(w, a, c, b, 0);
    }
    forall s ensures MacPass(w, s, 0) == "" <==> s == "" { PassLength(w, s, 0); }
    forall s | OneLine(s) ensures OneLine(MacPass(w, s, 0)) { MacPassOneLine(w, s); }
    forall s | Contains(s, OFFSET) ensures Contains(MacPass(w, s, 0), OFFSET) { MacPassOffset(w, s); }
  }

  lemma MacPassOneLine(w: char -> bool, s: string)
    requires OneLine(s)
    ensures OneLine(MacPass(w, s, 0))
  {
    hide MacAt;
    PassLength(w, s, 0);
    forall k | 0 <= k < |s| ensures MacPass(w, s, 0)[k] != '\n' {
      OnlyNicMasked(w, s, 0, k);
      assert s[k] in s;
    }
  }

  lemma MacPassOffset(w: char -> bool, s: string)
    requires WordClass(w) && Contains(s, OFFSET)
    ensures Contains(MacPass(w, s, 0), OFFSET)
  {
    hide MacAt, MacPass;
    var i := Find(s, OFFSET).value;
    PassLength(w, s, 0);
    OffsetUnmasked(w, s, i);
    OffsetAt(MacPass(w, s, 0), i);
    Occurs(MacPass(w, s, 0), OFFSET, i);
  }

  // ----- the IP passes -----

  /** A match is not empty, has neither '+' nor 'x' in it, and where it ends with a word character no word
      character follows. */
  ghost predicate Shaped(w: char -> bool, cells: seq<Cell>) {
    forall i :: 0 <= i < |cells| && cells[i].Mask? ==> MatchShape(w, cells[i].matched, Source(cells[i + 1..]))
  }

  predicate MatchShape(w: char -> bool, m: string, rest: string) {
    && m != "" && '+' !in m && 'x' !in m
    && (w(m[|m| - 1]) && rest != "" ==> !w(rest[0]))
  }

  /** How the IP patterns cut a text: no match has a blank in it, so each blank-free piece is cut alone. */
  ghost predicate Cuts(w: char -> bool, cut: string -> seq<Cell>) {
    && (forall s :: Source(cut(s)) == s)
    && (forall s :: Shaped(w, cut(s)))
    && forall a, c, b :: Blank(c) ==> cut(a + [c] + b) == cut(a) + [Char(c)] + cut(b)
  }

  lemma {:induction false} OutputConcat(x: seq<Cell>, y: seq<Cell>, rep: string)
    ensures Output(x + y, rep) == Output(x, rep) + Output(y, rep)
  {
    if x == [] {
      assert x + y == y;
    } else {
      assert (x + y)[1..] == x[1..] + y;
      OutputConcat(x[1..], y, rep);
    }
  }

  lemma OutputLocal(x: seq<Cell>, c: char, y: seq<Cell>, rep: string)
    ensures Output(x + [Char(c)] + y, rep) == Output(x, rep) + [c] + Output(y, rep)
  {
    OutputConcat(x + [Char(c)], y, rep);
    OutputConcat(x, [Char(c)], rep);
    assert [Char(c)][1..] == [];
    assert Output([Char(c)], rep) == [c];
  }

  lemma ShapedRest(w: char -> bool, cells: seq<Cell>)
    requires Shaped(w, cells) && cells != []
    ensures Shaped(w, cells[1..])
  {
    forall i | 0 <= i < |cells[1..]| && cells[1..][i].Mask? ensures MatchShape(w, cells[1..][i].matched, Source(cells[1..][i + 1..])) {
      assert cells[1..][i] == cells[i + 1] && cells[1..][i + 1..] == cells[i + 2..];
      assert MatchShape(w, cells[i + 1].matched, Source(cells[i + 2..]));
    }
  }

  lemma OutputEmpty(w: char -> bool, cells: seq<Cell>, rep: string)
    requires Shaped(w, cells) && rep != ""
    ensures Output(cells, rep) == "" <==> Source(cells) == ""
  {
    assert cells != [] && cells[0].Mask? ==> MatchShape(w, cells[0].matched, Source(cells[1..]));
  }

  lemma {:induction false} OutputOneLine(cells: seq<Cell>, rep: string)
    requires OneLine(Source(cells)) && OneLine(rep)
    ensures OneLine(Output(cells, rep))
  {
    if cells != [] {
      var t := if cells[0].Char? then [cells[0].c] else cells[0].matched;
      assert Source(cells) == t + Source(cells[1..]);
      forall k | 0 <= k < |Source(cells[1..])| ensures Source(cells[1..])[k] != '\n' {
        assert Source(cells)[|t| + k] == Source(cells[1..])[k];
      }
      assert cells[0].Char? ==> Source(cells)[0] == cells[0].c;
      OutputOneLine(cells[1..], rep);
    }
  }

  /** An offset mark is made of characters that stay. */
  lemma OffsetCells(w: char -> bool, cells: seq<Cell>)
    requires WordClass(w) && Shaped(w, cells) && OccursAt(Source(cells), OFFSET, 0)
    ensures |cells| >= 3 && cells[0] == Char('+') && cells[1] == Char('0') && cells[2] == Char('x')
  {
    var s := Source(cells);
    OffsetAt(s, 0);
    FirstCell(w, cells, '+');
    ShapedRest(w, cells);
    var t := Source(cells[1..]);
    assert s == ['+'] + t;
    assert t[0] == '0' && t[1] == 'x';
    ZeroCell(w, cells[1..]);
    ShapedRest(w, cells[1..]);
    var u := Source(cells[1..][1..]);
    assert t == ['0'] + u;
    assert u[0] == 'x';
    FirstCell(w, cells[1..][1..], 'x');
    assert cells[1..][1..] == cells[2..];
  }

  lemma MarkStart(w: char -> bool, m: string, rest: string, c: char)
    requires m + rest != "" && (m + rest)[0] == c && (c == '+' || c == 'x')
    ensures !MatchShape(w, m, rest)
  {
    assert m != "" ==> m[0] == c;
  }

  lemma FirstCell(w: char -> bool, cells: seq<Cell>, c: char)
    requires Shaped(w, cells) && Source(cells) != "" && Source(cells)[0] == c && (c == '+' || c == 'x')
    ensures cells != [] && cells[0] == Char(c)
  {
    if cells[0].Mask? {
      MarkStart(w, cells[0].matched, Source(cells[1..]), c);
    }
  }

  lemma ZeroCell(w: char -> bool, cells: seq<Cell>)
    requires WordClass(w) && Shaped(w, cells) && |Source(cells)| >= 2 && Source(cells)[0] == '0' && Source(cells)[1] == 'x'
    ensures cells != [] && cells[0] == Char('0')
  {
    if cells[0].Mask? {
      ZeroMatch(w, cells[0].matched, Source(cells[1..]));
    }
  }

  lemma ZeroMatch(w: char -> bool, m: string, rest: string)
    requires WordClass(w) && |m + rest| >= 2 && (m + rest)[0] == '0' && (m + rest)[1] == 'x'
    ensures !MatchShape(w, m, rest)
  {
    assert Text.IsHexDigit('0');
    assert |m| >= 2 ==> m[1] == 'x';
    assert |m| == 1 ==> rest != "" && rest[0] == 'x' && m[0] == '0';
  }

  lemma PlusBehind(w: char -> bool, cells: seq<Cell>, i: nat)
    requires Shaped(w, cells) && cells != [] && 0 < i < |Source(cells)| && Source(cells)[i] == '+'
    ensures i >= if cells[0].Char? then 1 else |cells[0].matched|
  {
    if cells[0].Mask? {
      assert MatchShape(w, cells[0].matched, Source(cells[1..]));
      assert forall k :: 0 <= k < |cells[0].matched| ==> Source(cells)[k] == cells[0].matched[k];
    }
  }

  lemma OutputSplit(cells: seq<Cell>, rep: string)
    requires cells != []
    ensures Output(cells, rep) == (if cells[0].Char? then [cells[0].c] else rep) + Output(cells[1..], rep)
  {
  }

  lemma OutputHead(cells: seq<Cell>, rep: string)
    requires cells != [] && cells[0].Char?
    ensures Output(cells, rep) == [cells[0].c] + Output(cells[1..], rep)
  {
  }

  lemma {:induction false} OutputOffset(w: char -> bool, cells: seq<Cell>, rep: string, i: nat)
    requires WordClass(w) && Shaped(w, cells) && OccursAt(Source(cells), OFFSET, i)
    ensures Contains(Output(cells, rep), OFFSET)
    decreases |cells|
  {
    hide Contains, Output;
    if i == 0 {
      OffsetCells(w, cells);
      OutputHead(cells, rep);
      OutputHead(cells[1..], rep);
      OutputHead(cells[1..][1..], rep);
      OffsetAt(Output(cells, rep), 0);
      Occurs(Output(cells, rep), OFFSET, 0);
    } else {
      var rest := cells[1..];
      var t := if cells[0].Char? then [cells[0].c] else cells[0].matched;
      assert Source(cells) == t + Source(rest);
      OffsetAt(Source(cells), i);
      PlusBehind(w, cells, i);
      OccursInPart(t, Source(rest), OFFSET, i);
      ShapedRest(w, cells);
      OutputOffset(w, rest, rep, i - |t|);
      OutputSplit(cells, rep);
      Behind(if cells[0].Char? then [cells[0].c] else rep, Output(rest, rep));
    }
  }

  lemma Behind(a: string, b: string)
    requires Contains(b, OFFSET)
    ensures Contains(a + b, OFFSET)
  {
    var j := Find(b, OFFSET).value;
    OccursInPart(a, b, OFFSET, |a| + j);
    Occurs(a + b, OFFSET, |a| + j);
  }

  lemma CutPassIsPass(w: char -> bool, cut: string -> seq<Cell>, rep: string)
    requires WordClass(w) && Cuts(w, cut) && rep != "" && OneLine(rep)
    ensures Pass(s => Output(cut(s), rep))
  {
    hide Output, Shaped, Contains, OneLine;
    forall a, c, b | Blank(c) ensures Output(cut(a + [c] + b), rep) == Output(cut(a), rep) + [c] + Output(cut(b), rep) {
      OutputLocal(cut(a), c, cut(b), rep);
    }
    forall s ensures Output(cut(s), rep) == "" <==> s == "" { OutputEmpty(w, cut(s), rep); }
    forall s | OneLine(s) ensures OneLine(Output(cut(s), rep)) { OutputOneLine(cut(s), rep); }
    forall s | Contains(s, OFFSET) ensures Contains(Output(cut(s), rep), OFFSET) {
      CutOffset(w, cut, rep, s);
    }
  }

  lemma CutOffset(w: char -> bool, cut: string -> seq<Cell>, rep: string, s: string)
    requires WordClass(w) && Cuts(w, cut) && Contains(s, OFFSET)
    ensures Contains(Output(cut(s), rep), OFFSET)
  {
    hide Output, Shaped;
    OutputOffset(w, cut(s), rep, Find(s, OFFSET).value);
  }

  /** `scrub` works on each blank-free piece alone and spares every offset mark. */
  lemma ScrubIsPass(w: char -> bool, ipv4: string -> seq<Cell>, ipv6: string -> seq<Cell>)
    requires WordClass(w) && NoBlankWords(w) && Cuts(w, ipv4) && Cuts(w, ipv6)
    ensures Pass(s => Scrub.Scrub(w, ipv4, ipv6, s))
  {
    hide Cuts, MacPass, Output, Pass;
    MacPassIsPass(w);
    CutPassIsPass(w, ipv4, IPV4_MASK);
    CutPassIsPass(w, ipv6, IPV6_MASK);
    var mac := s => MacPass(w, s, 0);
    var four := s => Output(ipv4(s), IPV4_MASK);
    var both := s => Output(ipv4(MacPass(w, s, 0)), IPV4_MASK);
    PassThenPass(mac, four, both);
    PassThenPass(both, s => Output(ipv6(s), IPV6_MASK), s => Scrub.Scrub(w, ipv4, ipv6, s));
  }
}
