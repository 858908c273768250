/** Results that may be absent. */
module Wrappers {
  datatype Option<+T> = None | Some(value: T)
}

/** The string operations of Rust's `str` that the crash-text code uses,
    each characterised by its contract. */
module Text {
  import opened Wrappers

  /** `char::is_whitespace`: the Unicode White_Space property. */
  predicate IsSpace(c: char) {
    var n := c as int;
    || 0x09 <= n <= 0x0d || n == 0x20 || n == 0x85 || n == 0xa0 || n == 0x1680
    || 0x2000 <= n <= 0x200a || n == 0x2028 || n == 0x2029 || n == 0x202f
    || n == 0x205f || n == 0x3000
  }

  predicate IsDigit(c: char) { '0' <= c <= '9' }

  predicate IsHexDigit(c: char) { IsDigit(c) || 'a' <= c <= 'f' || 'A' <= c <= 'F' }

  predicate AllSpace(s: string) { forall i {:trigger IsSpace(s[i])} :: 0 <= i < |s| ==> IsSpace(s[i]) }

  predicate NoSpace(s: string) { forall i {:trigger IsSpace(s[i])} :: 0 <= i < |s| ==> !IsSpace(s[i]) }

  /** Length of the UTF-8 encoding, which is what `str::len` returns. */
  function ByteLen(s: string): (n: nat)
    ensures n >= |s|
  {
    if s == "" then 0
    else
      var c := s[0] as int;
      (if c < 0x80 then 1 else if c < 0x800 then 2 else if c < 0x10000 then 3 else 4)
      + ByteLen(s[1..])
  }

  /** What stands between a symbol and its offset. */
  const OFFSET := "+0x"

  // ----- searching -----

  predicate OccursAt(s: string, p: string, i: int) {
    0 <= i && i + |p| <= |s| && s[i..i + |p|] == p
  }

  /** First occurrence of `p` at or after `from`. */
  function FindFrom(s: string, p: string, from: nat): (r: Option<nat>)
    ensures r.Some? ==> from <= r.value && OccursAt(s, p, r.value)
    ensures r.Some? ==> forall j :: from <= j < r.value ==> !OccursAt(s, p, j)
    ensures r.None? ==> forall j :: from <= j ==> !OccursAt(s, p, j)
    decreases |s| - from
  {
    if from + |p| > |s| then None
    else if s[from..from + |p|] == p then Some(from)
    else FindFrom(s, p, from + 1)
  }

  /** `str::find`. */
  function Find(s: string, p: string): (r: Option<nat>)
    ensures r.Some? ==> OccursAt(s, p, r.value)
    ensures r.Some? ==> forall j :: 0 <= j < r.value ==> !OccursAt(s, p, j)
    ensures r.None? ==> forall j :: !OccursAt(s, p, j)
  {
    FindFrom(s, p, 0)
  }

  /** `str::rfind`: the last occurrence that ends within the first `end` characters. */
  function RFindUpTo(s: string, p: string, end: nat): (r: Option<nat>)
    requires end <= |s|
    ensures r.Some? ==> r.value + |p| <= end && OccursAt(s, p, r.value)
    ensures r.Some? ==> forall j :: r.value < j && j + |p| <= end ==> !OccursAt(s, p, j)
    ensures r.None? ==> forall j :: j + |p| <= end ==> !OccursAt(s, p, j)
  {
    if end < |p| then None
    else if s[end - |p|..end] == p then Some(end - |p|)
    else if end == |p| then None
    else RFindUpTo(s, p, end - 1)
  }

  function RFind(s: string, p: string): (r: Option<nat>)
    ensures r.Some? ==> OccursAt(s, p, r.value)
    ensures r.Some? ==> forall j :: r.value < j ==> !OccursAt(s, p, j)
    ensures r.None? ==> forall j :: !OccursAt(s, p, j)
  {
    RFindUpTo(s, p, |s|)
  }

  predicate Contains(s: string, p: string) { Find(s, p).Some? }

  predicate StartsWith(s: string, p: string) { p <= s }

  predicate EndsWith(s: string, p: string) { |p| <= |s| && s[|s| - |p|..] == p }

  /** An occurrence inside one part of a concatenation is an occurrence of the whole. */
  lemma OccursInPart(a: string, b: string, p: string, i: nat)
    ensures i + |p| <= |a| ==> (OccursAt(a + b, p, i) <==> OccursAt(a, p, i))
    ensures i >= |a| ==> (OccursAt(a + b, p, i) <==> OccursAt(b, p, i - |a|))
  {
    if i + |p| <= |a| {
      assert (a + b)[i..i + |p|] == a[i..i + |p|];
    }
    if i >= |a| && i + |p| <= |a| + |b| {
      assert (a + b)[i..i + |p|] == b[i - |a|..i - |a| + |p|];
    }
  }

  lemma OccursChar(s: string, p: string, i: nat, k: nat)
    requires OccursAt(s, p, i) && k < |p|
    ensures s[i + k] == p[k]
  {
    assert s[i..i + |p|][k] == s[i + k];
  }

  /** Appending text keeps a first occurrence. */
  lemma FindTail(s: string, p: string, tail: string)
    requires Find(s, p).Some?
    ensures Find(s + tail, p) == Find(s, p)
  {
    var i := Find(s, p).value;
    forall j | 0 <= j <= i ensures OccursAt(s + tail, p, j) <==> OccursAt(s, p, j) {
      OccursInPart(s, tail, p, j);
    }
  }

  // ----- trimming -----

  /** `str::trim_start`: what is left after the longest all-space prefix. */
  function TrimStart(s: string): (r: string)
    ensures |r| <= |s| && (r == "" || !IsSpace(r[0]))
  {
    if s != "" && IsSpace(s[0]) then TrimStart(s[1..]) else s
  }

  lemma {:induction false} TrimStartParts(s: string)
    ensures var r := TrimStart(s); r == s[|s| - |r|..] && AllSpace(s[..|s| - |r|])
  {
    if s != "" && IsSpace(s[0]) {
      TrimStartParts(s[1..]);
      var r := TrimStart(s[1..]);
      assert s[..|s| - |r|] == [s[0]] + s[1..][..|s[1..]| - |r|];
    }
  }

  /** `str::trim_end`. */
  function TrimEnd(s: string): (r: string)
    ensures |r| <= |s| && (r == "" || !IsSpace(r[|r| - 1]))
  {
    if s != "" && IsSpace(s[|s| - 1]) then TrimEnd(s[..|s| - 1]) else s
  }

  lemma {:induction false} TrimEndParts(s: string)
    ensures var r := TrimEnd(s); r == s[..|r|] && AllSpace(s[|r|..])
  {
    if s != "" && IsSpace(s[|s| - 1]) {
      TrimEndParts(s[..|s| - 1]);
      var r := TrimEnd(s[..|s| - 1]);
      assert s[|r|..] == s[..|s| - 1][|r|..] + [s[|s| - 1]];
    }
  }

  function Trim(s: string): string { TrimEnd(TrimStart(s)) }

  lemma {:induction false} TrimStartIs(ws: string, r: string)
    requires AllSpace(ws) && (r == "" || !IsSpace(r[0]))
    ensures TrimStart(ws + r) == r
  {
    if ws == "" {
      assert ws + r == r;
    } else {
      assert (ws + r)[1..] == ws[1..] + r;
      TrimStartIs(ws[1..], r);
    }
  }

  lemma {:induction false} TrimEndIs(r: string, ws: string)
    requires AllSpace(ws) && (r == "" || !IsSpace(r[|r| - 1]))
    ensures TrimEnd(r + ws) == r
  {
    if ws == "" {
      assert r + ws == r;
    } else {
      assert (r + ws)[..|r + ws| - 1] == r + ws[..|ws| - 1];
      TrimEndIs(r, ws[..|ws| - 1]);
    }
  }

  /** What trimming takes off. */
  lemma TrimParts(s: string) returns (a: string, b: string)
    ensures s == a + Trim(s) + b && AllSpace(a) && AllSpace(b)
  {
    hide TrimStart, TrimEnd, IsSpace;
    var t := TrimStart(s);
    var r := TrimEnd(t);
    TrimStartParts(s);
    TrimEndParts(t);
    a, b := s[..|s| - |t|], t[|r|..];
    assert s == a + t && t == r + b;
  }

  lemma SolidInTrim(s: string, c: char)
    requires c in s && !IsSpace(c)
    ensures c in Trim(s)
  {
    hide Trim;
    var a, b := TrimParts(s);
    NotInSpace(a, c);
    NotInSpace(b, c);
  }

  lemma NotInSpace(a: string, c: char)
    requires AllSpace(a) && !IsSpace(c)
    ensures c !in a
  {
    forall i | 0 <= i < |a| ensures a[i] != c {
      assert IsSpace(a[i]);
    }
  }

  // ----- splitting -----

  function StripCr(s: string): string {
    if s != "" && s[|s| - 1] == '\r' then s[..|s| - 1] else s
  }

  /** `str::lines`: the pieces ended by "\n" or "\r\n", and a last piece without one. */
  function Lines(s: string): seq<string>
    decreases |s|
  {
    if s == "" then []
    else
      match Find(s, "\n")
      case None => [s]
      case Some(i) => [StripCr(s[..i])] + Lines(s[i + 1..])
  }

  /** Every line followed by a newline. */
  function Unlines(ls: seq<string>): string {
    if ls == [] then "" else ls[0] + "\n" + Unlines(ls[1..])
  }

  predicate OneLine(s: string) { '\n' !in s }

  lemma FindChar(s: string, c: char, i: nat)
    requires i < |s| && s[i] == c && c !in s[..i]
    ensures Find(s, [c]) == Some(i)
  {
    assert OccursAt(s, [c], i) by { assert s[i..i + 1] == [c]; }
    forall j | 0 <= j < i ensures !OccursAt(s, [c], j) {
      assert s[..i][j] == s[j];
      assert s[j..j + 1][0] == s[j];
    }
  }

  lemma NoChar(s: string, c: char)
    ensures Find(s, [c]).None? <==> c !in s
  {
    match Find(s, [c])
    case None =>
      forall i | 0 <= i < |s| ensures s[i] != c {
        assert !OccursAt(s, [c], i);
        assert s[i..i + 1] == [s[i]];
      }
    case Some(i) =>
      assert s[i..i + 1][0] == s[i];
  }

  /** The characters before the first `c` do not include `c`. */
  lemma BeforeChar(s: string, c: char)
    requires Find(s, [c]).Some?
    ensures var i := Find(s, [c]).value; i < |s| && s[i] == c && c !in s[..i]
  {
    var i := Find(s, [c]).value;
    assert s[i..i + 1][0] == s[i];
    forall j | 0 <= j < i ensures s[j] != c {
      assert s[j..j + 1] == [s[j]];
      assert !OccursAt(s, [c], j);
    }
  }

  /** `str::split_once`. */
  function SplitOnce(s: string, sep: string): Option<(string, string)> {
    match Find(s, sep)
    case Some(i) => Some((s[..i], s[i + |sep|..]))
    case None => None
  }

  /** `str::rsplit_once`. */
  function RSplitOnce(s: string, sep: string): (r: Option<(string, string)>)
    ensures r.Some? ==> s == r.value.0 + sep + r.value.1
  {
    match RFind(s, sep)
    case Some(i) =>
      assert s == s[..i] + s[i..i + |sep|] + s[i + |sep|..];
      Some((s[..i], s[i + |sep|..]))
    case None => None
  }

  lemma SplitOnceAt(a: string, c: char, b: string)
    requires c !in a
    ensures SplitOnce(a + [c] + b, [c]) == Some((a, b))
  {
    var s := a + [c] + b;
    assert s[..|a|] == a && s[|a|] == c && s[|a| + 1..] == b;
    FindChar(s, c, |a|);
  }

  lemma SplitOnceParts(s: string, c: char)
    ensures match SplitOnce(s, [c])
            case Some((a, b)) => s == a + [c] + b && c !in a
            case None => c !in s
  {
    NoChar(s, c);
    if Find(s, [c]).Some? {
      BeforeChar(s, c);
    }
  }

  /** Appending text changes only the second half of a split; a split that is only possible
      with the appended text has all of `s` in its first half. */
  lemma SplitOnceTail(s: string, c: char, tail: string)
    ensures match SplitOnce(s, [c])
            case Some((a, b)) => SplitOnce(s + tail, [c]) == Some((a, b + tail))
            case None => match SplitOnce(s + tail, [c])
                         case Some((a, b)) => s <= a
                         case None => true
  {
    hide SplitOnce;
    SplitOnceParts(s, c);
    match SplitOnce(s, [c])
    case Some((a, b)) =>
      Assoc(a + [c], b, tail);
      SplitOnceAt(a, c, b + tail);
    case None =>
      SplitOnceParts(s + tail, c);
      match SplitOnce(s + tail, [c])
      case Some((a, b)) => PrefixWithout(s, tail, a, c, b);
      case None =>
  }

  lemma PrefixWithout(s: string, tail: string, a: string, c: char, b: string)
    requires s + tail == a + [c] + b && c !in s
    ensures s <= a
  {
    assert (a + [c] + b)[|a|] == c;
    assert forall i :: 0 <= i < |s| ==> (s + tail)[i] == s[i] && s[i] != c;
    assert |s| <= |a|;
    assert forall i :: 0 <= i < |s| ==> a[i] == (a + [c] + b)[i];
  }

  lemma LinesOfOne(l: string, rest: string)
    requires OneLine(l)
    ensures Lines(l + "\n" + rest) == [StripCr(l)] + Lines(rest)
  {
    var s := l + "\n" + rest;
    assert s[..|l|] == l && s[|l|] == '\n' && s[|l| + 1..] == rest;
    FindChar(s, '\n', |l|);
  }

  lemma {:induction false} LinesOfUnlines(ls: seq<string>)
    requires forall i :: 0 <= i < |ls| ==> OneLine(ls[i])
    ensures |Lines(Unlines(ls))| == |ls|
    ensures forall i :: 0 <= i < |ls| ==> Lines(Unlines(ls))[i] == StripCr(ls[i])
  {
    if ls != [] {
      LinesOfUnlines(ls[1..]);
      LinesOfOne(ls[0], Unlines(ls[1..]));
    }
  }

  lemma FirstLine(a: string) returns (l: string, rest: string)
    requires a != "" && a[|a| - 1] == '\n'
    ensures a == l + "\n" + rest && OneLine(l)
    ensures rest == "" || rest[|rest| - 1] == '\n'
  {
    NoChar(a, '\n');
    BeforeChar(a, '\n');
    var i := Find(a, "\n").value;
    l, rest := a[..i], a[i + 1..];
  }

  /** Text that ends on a line boundary can be split off line-wise. */
  lemma {:induction false} LinesOfConcat(a: string, b: string)
    requires a == "" || a[|a| - 1] == '\n'
    ensures Lines(a + b) == Lines(a) + Lines(b)
    decreases |a|
  {
    assert Lines("") == [];
    hide Lines, OneLine;
    if a == "" {
      assert a + b == b;
    } else {
      var l, rest := FirstLine(a);
      assert a + b == l + "\n" + (rest + b);
      LinesOfOne(l, rest);
      LinesOfOne(l, rest + b);
      LinesOfConcat(rest, b);
      Assoc([StripCr(l)], Lines(rest), Lines(b));
    }
  }

  lemma {:induction false} LinesAreOneLine(s: string)
    ensures forall i :: 0 <= i < |Lines(s)| ==> OneLine(Lines(s)[i])
    decreases |s|
  {
    if s != "" {
      NoChar(s, '\n');
      if Find(s, "\n").Some? {
        BeforeChar(s, '\n');
        LinesAreOneLine(s[Find(s, "\n").value + 1..]);
      }
    }
  }

  /** Length of the space-free run that starts the string. */
  function WordLen(s: string): (n: nat)
    ensures n <= |s| && (s != "" && !IsSpace(s[0]) ==> n > 0)
  {
    if s == "" || IsSpace(s[0]) then 0 else WordLen(s[1..]) + 1
  }

  lemma {:induction false} WordLenParts(s: string)
    ensures var n := WordLen(s); NoSpace(s[..n]) && (n < |s| ==> IsSpace(s[n]))
  {
    if s != "" && !IsSpace(s[0]) {
      WordLenParts(s[1..]);
      var n := WordLen(s[1..]);
      assert s[..n + 1] == [s[0]] + s[1..][..n];
    }
  }

  /** `str::split_whitespace`. */
  function Words(s: string): seq<string>
    decreases |s|
  {
    var t := TrimStart(s);
    if t == "" then [] else
      var n := WordLen(t);
      [t[..n]] + Words(t[n..])
  }

  lemma {:induction false} WordsAreWords(s: string)
    ensures forall i :: 0 <= i < |Words(s)| ==> Words(s)[i] != "" && NoSpace(Words(s)[i])
    decreases |s|
  {
    var t := TrimStart(s);
    if t != "" {
      WordLenParts(t);
      WordsAreWords(t[WordLen(t)..]);
    }
  }

  lemma WordsOfSpace(s: string)
    requires AllSpace(s)
    ensures Words(s) == []
  {
    TrimStartIs(s, "");
    assert s + "" == s;
  }

  predicate StartsSpaced(s: string) { s == "" || IsSpace(s[0]) }

  lemma {:induction false} WordLenIs(w: string, rest: string)
    requires NoSpace(w) && StartsSpaced(rest)
    ensures WordLen(w + rest) == |w|
  {
    if w == "" {
      assert w + rest == rest;
    } else {
      assert (w + rest)[1..] == w[1..] + rest;
      WordLenIs(w[1..], rest);
    }
  }

  /** The first word and what follows it. */
  lemma WordsStep(sp: string, w: string, rest: string)
    requires AllSpace(sp) && w != "" && NoSpace(w) && StartsSpaced(rest)
    ensures Words(sp + w + rest) == [w] + Words(rest)
  {
    var t := w + rest;
    assert sp + w + rest == sp + t;
    assert !IsSpace(t[0]);
    TrimStartIs(sp, t);
    WordLenIs(w, rest);
    assert t[..|w|] == w && t[|w|..] == rest;
  }

  lemma FirstWord(s: string) returns (sp: string, w: string, rest: string)
    requires !AllSpace(s)
    ensures s == sp + w + rest && AllSpace(sp) && w != "" && NoSpace(w) && StartsSpaced(rest)
    ensures IsSpace(s[|s| - 1]) ==> rest != "" && IsSpace(rest[|rest| - 1])
  {
    hide TrimStart, WordLen, IsSpace;
    var t := TrimStart(s);
    var n := WordLen(t);
    TrimStartParts(s);
    WordLenParts(t);
    sp, w, rest := s[..|s| - |t|], t[..n], t[n..];
    assert s == sp + t && t == w + rest;
    assert t != "" by { assert sp + "" == sp; }
    LastOfParts(sp, w, rest);
  }

  lemma LastOfParts(sp: string, w: string, rest: string)
    requires w != "" && NoSpace(w)
    ensures var s := sp + w + rest; IsSpace(s[|s| - 1]) ==> rest != "" && IsSpace(rest[|rest| - 1])
  {
    var s := sp + w + rest;
    if rest == "" {
      assert s[|s| - 1] == w[|w| - 1];
    } else {
      assert s[|s| - 1] == rest[|rest| - 1];
    }
  }

  lemma Cancel<T>(a: seq<T>, b: seq<T>, c: seq<T>)
    ensures a + b == a + c <==> b == c
  {
    if a + b == a + c {
      assert (a + b)[|a|..] == b && (a + c)[|a|..] == c;
    }
  }

  lemma RightUnit<T>(a: seq<T>)
    ensures a + [] == a
  {
  }

  lemma Assoc<T>(a: seq<T>, b: seq<T>, c: seq<T>)
    ensures (a + b) + c == a + (b + c)
  {
  }

  lemma UpdateMiddle<T>(a: seq<T>, x: T, y: T, b: seq<T>)
    ensures (a + [x] + b)[|a| := y] == a + [y] + b && (a + [x] + b)[|a|] == x
  {
  }

  lemma Regroup<T>(a: seq<T>, b: seq<T>, c: seq<T>, d: seq<T>, e: seq<T>)
    ensures (a + b + c) + d + e == a + b + (c + d + e)
    ensures a == [] ==> a + b == b
  {
  }

  lemma WordsAroundStep(sp: string, v: string, rest: string, w: string, post: string)
    requires AllSpace(sp) && v != "" && NoSpace(v) && StartsSpaced(rest) && rest != ""
    requires Words(rest + w + post) == Words(rest) + [w] + Words(post)
    ensures Words(sp + v + rest + w + post) == Words(sp + v + rest) + [w] + Words(post)
  {
    hide Words, IsSpace;
    WordsStep(sp, v, rest);
    WordsStep(sp, v, rest + w + post);
    Regroup(sp, v, rest, w, post);
    var a, b := Words(rest), Words(post);
    Regroup([], [v], a, [w], b);
    assert [] + [v] == [v];
  }

  /** A word between spaces is one of the words, and splits the others. */
  lemma {:induction false} WordsAround(pre: string, w: string, post: string)
    requires w != "" && NoSpace(w)
    requires pre == "" || IsSpace(pre[|pre| - 1])
    requires StartsSpaced(post)
    ensures Words(pre + w + post) == Words(pre) + [w] + Words(post)
    decreases |pre|
  {
    hide Words, IsSpace;
    if AllSpace(pre) {
      WordsOfSpace(pre);
      WordsStep(pre, w, post);
    } else {
      var sp, v, rest := FirstWord(pre);
      WordsAround(rest, w, post);
      WordsAroundStep(sp, v, rest, w, post);
    }
  }

  lemma {:induction false} WordsOfTrimEnd(s: string)
    ensures Words(TrimEnd(s)) == Words(s)
    decreases |s|
  {
    hide Words, TrimEnd, IsSpace;
    if AllSpace(s) {
      TrimEndParts(s);
      WordsOfSpace(s);
      WordsOfSpace(TrimEnd(s));
    } else {
      var sp, w, rest := FirstWord(s);
      var e := TrimEnd(rest);
      TrimEndParts(rest);
      assert StartsSpaced(e);
      assert s == (sp + w + e) + rest[|e|..] by { assert rest == e + rest[|e|..]; }
      TrimEndIs(sp + w + e, rest[|e|..]);
      WordsStep(sp, w, rest);
      WordsStep(sp, w, e);
      WordsOfTrimEnd(rest);
    }
  }

  lemma WordsBeforeSpace(s: string, c: char)
    requires IsSpace(c)
    ensures Words(s + [c]) == Words(s)
  {
    hide Words, TrimEnd, IsSpace;
    var e := TrimEnd(s);
    TrimEndParts(s);
    var sp := s[|e|..] + [c];
    assert s + [c] == e + sp;
    TrimEndIs(e, sp);
    WordsOfTrimEnd(s);
    WordsOfTrimEnd(s + [c]);
  }

  lemma LoneWord(w: string)
    requires NoSpace(w)
    ensures Words(w) == if w == "" then [] else [w]
  {
    WordsOfSpace("");
    if w != "" {
      hide Words;
      WordsStep("", w, "");
      assert "" + w + "" == w;
    }
  }

  lemma WordsSnoc(s: string, c: char, w: string)
    requires IsSpace(c) && w != "" && NoSpace(w)
    ensures Words(s + [c] + w) == Words(s) + [w]
  {
    WordsOfSpace("");
    hide Words, IsSpace;
    var pre := s + [c];
    assert pre[|pre| - 1] == c;
    WordsBeforeSpace(s, c);
    WordsAround(pre, w, "");
    RightUnit(pre + w);
    RightUnit(Words(s) + [w]);
  }

  lemma WordsBeforeSpaces(s: string, sp: string)
    requires AllSpace(sp)
    ensures Words(s + sp) == Words(s)
  {
    hide Words, TrimEnd, IsSpace;
    var e := TrimEnd(s);
    TrimEndParts(s);
    assert s + sp == e + (s[|e|..] + sp);
    TrimEndIs(e, s[|e|..] + sp);
    WordsOfTrimEnd(s);
    WordsOfTrimEnd(s + sp);
  }

  /** Texts separated by space have their words one after the other. */
  lemma WordsOfConcat(a: string, sp: string, b: string)
    requires sp != "" && AllSpace(sp)
    ensures Words(a + sp + b) == Words(a) + Words(b)
  {
    hide Words, IsSpace;
    if AllSpace(b) {
      WordsOfSpace(b);
      Assoc(a, sp, b);
      WordsBeforeSpaces(a, sp + b);
    } else {
      var lead, w, rest := FirstWord(b);
      var pre := a + sp + lead;
      assert a + sp + b == pre + w + rest;
      assert IsSpace(pre[|pre| - 1]);
      WordsAround(pre, w, rest);
      Assoc(a, sp, lead);
      WordsBeforeSpaces(a, sp + lead);
      WordsStep(lead, w, rest);
      Assoc(Words(a), [w], Words(rest));
    }
  }

  /** The first and the last character of a text with solid ends belong to its first and last word. */
  lemma {:induction false} WordEnds(s: string)
    requires s != "" && !IsSpace(s[|s| - 1])
    ensures var ws := Words(s);
            ws != [] && ws[0] != "" && ws[|ws| - 1] != "" && (!IsSpace(s[0]) ==> ws[0][0] == s[0])
    ensures var w := Words(s)[|Words(s)| - 1]; w[|w| - 1] == s[|s| - 1]
    decreases |s|
  {
    hide Words, IsSpace;
    assert !AllSpace(s);
    var sp, w, rest := FirstWord(s);
    WordsStep(sp, w, rest);
    if rest == "" {
      WordsOfSpace("");
      assert s[|s| - 1] == w[|w| - 1];
    } else {
      assert rest[|rest| - 1] == s[|s| - 1];
      WordEnds(rest);
    }
    if sp == "" {
      assert w[0] == s[0];
    } else {
      assert s[0] == sp[0] && IsSpace(sp[0]);
    }
  }

  lemma WordsOfTrim(s: string)
    ensures Words(Trim(s)) == Words(s)
  {
    WordsOfTrimEnd(TrimStart(s));
    var t := TrimStart(s);
    TrimStartIs("", t);
    assert "" + t == t;
  }

  function Join(parts: seq<string>, sep: string): string {
    if parts == [] then ""
    else if |parts| == 1 then parts[0]
    else parts[0] + sep + Join(parts[1..], sep)
  }
}
