/** Which words of an exception line count, told by their characters. */
module Noise {
  import opened Text
  import opened Exceptions

  /** A word: its core with any brackets and commas around it. */
  predicate Word(x: string, l: string, core: string, r: string) {
    && x == l + core + r && x != "" && NoSpace(x)
    && (forall i :: 0 <= i < |l| ==> l[i] == '[' || l[i] == ']' || l[i] == ',')
    && (forall i :: 0 <= i < |r| ==> r[i] == '[' || r[i] == ']' || r[i] == ',')
    && (core == "" ==> r == "")
    && (core != "" ==> core[0] != '[' && core[0] != ']' && core[0] != ',')
    && (core != "" ==> core[|core| - 1] != '[' && core[|core| - 1] != ']' && core[|core| - 1] != ',')
  }

  predicate Address(core: string) {
    || (|core| >= 2 && core[0] == '0' && core[1] == 'x')
    || (|core| >= 4 && forall i :: 0 <= i < |core| ==> '0' <= core[i] <= '9' || 'a' <= core[i] <= 'f' || 'A' <= core[i] <= 'F')
  }

  predicate Counter(core: string) {
    || (core != "" && core[0] == '#')
    || ((exists i :: 0 <= i < |core| && core[i] == '.') && forall i :: 0 <= i < |core| ==> '0' <= core[i] <= '9' || core[i] == '.')
  }

  predicate Label(core: string) { core == "CPU:" || core == "PID:" || core == "Comm:" || core == "Tainted:" }

  /** The last word of a text is one of the labels that take the word behind them along. */
  ghost predicate EndsInLabel(pre: string) { Words(pre) != [] && Labelled(Words(pre)[|Words(pre)| - 1]) }

  ghost predicate Labelled(x: string) { exists l, core, r :: Word(x, l, core, r) && Label(core) }

  // ----- the code's own tests say the same -----

  lemma {:induction false} DropLeftOf(l: string, rest: string)
    requires forall i :: 0 <= i < |l| ==> IsBracket(l[i])
    requires rest == "" || !IsBracket(rest[0])
    ensures DropLeft(l + rest) == rest
  {
    if l == "" {
      assert l + rest == rest;
    } else {
      assert (l + rest)[1..] == l[1..] + rest;
      DropLeftOf(l[1..], rest);
    }
  }

  lemma {:induction false} DropRightOf(rest: string, r: string)
    requires forall i :: 0 <= i < |r| ==> IsBracket(r[i])
    requires rest == "" || !IsBracket(rest[|rest| - 1])
    ensures DropRight(rest + r) == rest
  {
    if r == "" {
      assert rest + r == rest;
    } else {
      assert (rest + r)[..|rest + r| - 1] == rest + r[..|r| - 1];
      DropRightOf(rest, r[..|r| - 1]);
    }
  }

  lemma BareOf(x: string, l: string, core: string, r: string)
    requires Word(x, l, core, r)
    ensures Bare(x) == core
  {
    hide NoSpace;
    assert x == l + (core + r);
    assert core != "" ==> (core + r)[0] == core[0];
    DropLeftOf(l, core + r);
    DropRightOf(core, r);
  }

  lemma {:induction false} AsciiLen(s: string)
    requires forall i :: 0 <= i < |s| ==> s[i] < 128 as char
    ensures ByteLen(s) == |s|
  {
    if s != "" {
      AsciiLen(s[1..]);
    }
  }

  lemma AddressIsHex(core: string)
    ensures Address(core) <==> IsHex(core)
  {
    if core != "" && forall i :: 0 <= i < |core| ==> IsHexDigit(core[i]) {
      AsciiLen(core);
    }
    assert StartsWith(core, "0x") <==> |core| >= 2 && core[0] == '0' && core[1] == 'x';
  }

  lemma CounterIsCounter(core: string)
    ensures Counter(core) <==> IsCounter(core)
  {
    assert StartsWith(core, "#") <==> core != "" && core[0] == '#';
  }

  lemma LabelIsNoise(core: string)
    ensures Label(core) <==> IsNoise(core) && core != "at"
    ensures Label(core) ==> !IsHex(core) && !IsCounter(core)
  {
    assert Label(core) ==> core[|core| - 1] == ':' && core[0] != '0' && core[0] != '#';
  }

  /** Every word has such a core. */
  lemma CoreOf(x: string) returns (l: string, r: string)
    requires x != "" && NoSpace(x)
    ensures Word(x, l, Bare(x), r)
  {
    hide NoSpace, DropLeft, DropRight;
    var u := DropLeft(x);
    var core := DropRight(u);
    l := LeftOf(x);
    RightOf(u);
    r := u[|core|..];
    assert u == core + r;
    Assoc(l, core, r);
    if core == "" {
      assert u == "";
    } else {
      assert core[0] == u[0];
    }
    Solid(core);
  }

  lemma Solid(core: string)
    ensures core != "" && !IsBracket(core[0]) && !IsBracket(core[|core| - 1]) ==>
      && core[0] != '[' && core[0] != ']' && core[0] != ','
      && core[|core| - 1] != '[' && core[|core| - 1] != ']' && core[|core| - 1] != ','
  {
  }

  lemma {:induction false} LeftOf(x: string) returns (l: string)
    ensures x == l + DropLeft(x) && forall i :: 0 <= i < |l| ==> IsBracket(l[i])
    ensures DropLeft(x) == "" || !IsBracket(DropLeft(x)[0])
  {
    l := "";
    if x != "" && IsBracket(x[0]) {
      l := LeftOf(x[1..]);
      l := [x[0]] + l;
    }
  }

  lemma {:induction false} RightOf(u: string)
    ensures forall i :: |DropRight(u)| <= i < |u| ==> IsBracket(u[i])
  {
    if u != "" && IsBracket(u[|u| - 1]) {
      RightOf(u[..|u| - 1]);
    }
  }

  lemma LabelledIsNoise(x: string)
    requires x != "" && NoSpace(x)
    ensures Labelled(x) <==> IsNoise(Bare(x)) && Bare(x) != "at"
  {
    hide NoSpace, Word, IsNoise, Bare, Label;
    var l, r := CoreOf(x);
    LabelIsNoise(Bare(x));
    if Labelled(x) {
      var l', core, r' :| Word(x, l', core, r') && Label(core);
      BareOf(x, l', core, r');
    }
  }

  // ----- one word more or less -----

  /** The words before `n` take nothing beyond `n` along. */
  predicate Closed(toks: seq<string>) { toks == [] || !(IsNoise(Bare(toks[|toks| - 1])) && Bare(toks[|toks| - 1]) != "at") }

  /** What is kept of a list behind another that takes nothing along. */
  lemma {:induction false} KeptAfter(a: seq<string>, b: seq<string>, i: nat)
    requires Closed(a) && i <= |a|
    ensures Kept(a + b, i) == Kept(a, i) + Kept(b, 0)
    decreases |a| - i
  {
    hide Bare, IsHex, IsCounter, IsNoise;
    if i == |a| {
      KeptShift(a, b, 0);
    } else {
      assert (a + b)[i] == a[i];
      KeptAfter(a, b, i + 1);
      Assoc([Bare(a[i])], Kept(a, i + 1), Kept(b, 0));
      if i + 1 < |a| {
        KeptAfter(a, b, i + 2);
      }
    }
  }

  lemma PreIsClosed(pre: string)
    requires !EndsInLabel(pre)
    ensures Closed(Words(pre))
  {
    hide Words, Labelled, IsNoise, Bare, NoSpace;
    WordsAreWords(pre);
    if Words(pre) != [] {
      LabelledIsNoise(Words(pre)[|Words(pre)| - 1]);
    }
  }

  predicate EndsSpaced(pre: string) { pre == "" || IsSpace(pre[|pre| - 1]) }

  /** The pieces of a line that goes on behind `pre`. */
  lemma PiecesAfter(pre: string, post: string)
    requires EndsSpaced(pre) && !EndsInLabel(pre)
    ensures Pieces(pre + post) == Kept(Words(pre), 0) + Kept(Words(post), 0)
  {
    hide Words, Kept, Trim, EndsInLabel, IsSpace;
    WordsOfTrim(pre + post);
    if pre == "" {
      WordsOfSpace("");
      assert pre + post == post;
      assert [] + Words(post) == Words(post);
    } else {
      var p, c := pre[..|pre| - 1], pre[|pre| - 1];
      assert pre == p + [c];
      WordsOfConcat(p, [c], post);
      WordsBeforeSpace(p, c);
    }
    PreIsClosed(pre);
    KeptAfter(Words(pre), Words(post), 0);
  }

  /** Address or counter: it leaves no trace. */
  predicate Vanishes(core: string) { Address(core) || Counter(core) }

  lemma Kinds(core: string)
    ensures Vanishes(core) <==> IsHex(core) || IsCounter(core)
    ensures Label(core) <==> IsNoise(core) && core != "at"
    ensures Label(core) ==> !Vanishes(core)
  {
    hide IsHex, IsCounter, IsNoise, Address, Counter, Label;
    AddressIsHex(core);
    CounterIsCounter(core);
    LabelIsNoise(core);
  }

  lemma {:induction false} SwapKept(toks: seq<string>, k: nat, y: string, i: nat)
    requires k < |toks| && i <= |toks| && Vanishes(Bare(toks[k])) && Vanishes(Bare(y))
    ensures Kept(toks[k := y], i) == Kept(toks, i)
    decreases |toks| - i
  {
    hide Bare, IsHex, IsCounter, IsNoise, NoSpace, Vanishes;
    Kinds(Bare(toks[k]));
    Kinds(Bare(y));
    if i < |toks| {
      SwapKept(toks, k, y, i + 1);
      if i + 1 < |toks| {
        SwapKept(toks, k, y, i + 2);
      }
    }
  }

  /** An address or counter, brackets and all. */
  ghost predicate Fleeting(x: string) { exists l, c, r :: Word(x, l, c, r) && Vanishes(c) }

  /** Any address or counter may stand for any other, also where a label takes it along. */
  lemma Replaced(pre: string, x: string, y: string, post: string)
    requires Fleeting(x) && Fleeting(y)
    requires EndsSpaced(pre) && StartsSpaced(post)
    ensures Normal(pre + x + post) == Normal(pre + y + post)
  {
    hide Words, Kept, Bare, Vanishes;
    var l, c, r :| Word(x, l, c, r) && Vanishes(c);
    var l', c', r' :| Word(y, l', c', r') && Vanishes(c');
    BareOf(x, l, c, r);
    BareOf(y, l', c', r');
    WordsOfTrim(pre + x + post);
    WordsOfTrim(pre + y + post);
    WordsAround(pre, x, post);
    WordsAround(pre, y, post);
    UpdateMiddle(Words(pre), x, y, Words(post));
    SwapKept(Words(pre) + [x] + Words(post), |Words(pre)|, y, 0);
  }

  lemma KeptFirst(x: string, l: string, c: string, r: string, b: seq<string>)
    requires Word(x, l, c, r)
    ensures Vanishes(c) ==> Kept([x] + b, 0) == Kept(b, 0)
    ensures Label(c) && b != [] ==> Kept([x] + b, 0) == Kept(b[1..], 0)
    ensures !Vanishes(c) && (Label(c) ==> b == []) ==> Kept([x] + b, 0) == [c] + Kept(b, 0)
  {
    hide Bare, IsHex, IsCounter, IsNoise, Vanishes, Label, NoSpace;
    BareOf(x, l, c, r);
    Kinds(c);
    KeptShift([x], b, 0);
    if b != [] {
      KeptShift([x, b[0]], b[1..], 0);
      assert [x] + b == [x, b[0]] + b[1..];
    }
  }

  /** Without it, and the blanks behind it, the line is the same. */
  lemma Removed(pre: string, x: string, sp: string, post: string, l: string, c: string, r: string)
    requires Word(x, l, c, r) && Vanishes(c) && AllSpace(sp) && (sp == "" ==> post == "")
    requires EndsSpaced(pre) && !EndsInLabel(pre)
    ensures Normal(pre + x + sp + post) == Normal(pre + post)
  {
    hide Words, Kept, Bare, Vanishes, EndsInLabel, Trim, NoSpace;
    FirstIs(x, sp, post);
    assert pre + x + sp + post == pre + (x + sp + post);
    PiecesAfter(pre, x + sp + post);
    PiecesAfter(pre, post);
    KeptFirst(x, l, c, r, Words(post));
  }

  lemma FirstIs(x: string, sp: string, post: string)
    requires x != "" && NoSpace(x) && AllSpace(sp) && (sp == "" ==> post == "")
    ensures Words(x + sp + post) == [x] + Words(post)
  {
    hide Words, IsSpace;
    assert x + sp + post == "" + x + (sp + post);
    assert StartsSpaced(sp + post);
    WordsStep("", x, sp + post);
    if sp == "" {
      assert sp + post == post;
    } else {
      assert "" + sp + post == sp + post;
      WordsOfConcat("", sp, post);
      WordsOfSpace("");
    }
  }

  /** So it is without a label and the word behind it. */
  lemma LabelRemoved(pre: string, x: string, sp: string, v: string, sp': string, post: string, l: string, c: string, r: string)
    requires Word(x, l, c, r) && Label(c) && sp != "" && AllSpace(sp) && v != "" && NoSpace(v)
    requires AllSpace(sp') && (sp' == "" ==> post == "")
    requires EndsSpaced(pre) && !EndsInLabel(pre)
    ensures Normal(pre + x + sp + v + sp' + post) == Normal(pre + post)
  {
    hide Words, Kept, Bare, EndsInLabel, Trim, NoSpace, IsSpace;
    FirstIs(v, sp', post);
    FirstIs(x, sp, v + sp' + post);
    assert pre + x + sp + v + sp' + post == pre + (x + sp + (v + sp' + post));
    PiecesAfter(pre, x + sp + (v + sp' + post));
    PiecesAfter(pre, post);
    KeptFirst(x, l, c, r, [v] + Words(post));
    assert ([v] + Words(post))[1..] == Words(post);
  }

  lemma {:induction false} GluePrefix(p: seq<string>, q: seq<string>)
    ensures Glue(p) <= Glue(p + q)
  {
    if q == [] {
      assert p + q == p;
    } else {
      assert (p + q)[..|p + q| - 1] == p + q[..|q| - 1];
      GluePrefix(p, q[..|q| - 1]);
    }
  }

  lemma FirstKept(x: string, post: string, l: string, c: string, r: string)
    requires Word(x, l, c, r) && !Vanishes(c) && (Label(c) ==> Words(post) == []) && StartsSpaced(post)
    ensures Kept(Words(x + post), 0) == [c] + Kept(Words(post), 0)
  {
    hide Words, Kept, Vanishes, Label, IsSpace;
    assert "" + x + post == x + post;
    WordsStep("", x, post);
    KeptFirst(x, l, c, r, Words(post));
  }

  lemma LoneKept(x: string, l: string, c: string, r: string)
    requires Word(x, l, c, r) && !Vanishes(c)
    ensures Kept(Words(x), 0) == [c]
  {
    hide Kept, Vanishes, Label, Words;
    LoneWord(x);
    KeptFirst(x, l, c, r, []);
    KeptNone();
    assert [x] + [] == [x] && [c] + [] == [c];
  }

  lemma KeptNone()
    ensures Kept([], 0) == []
  {
  }

  /** Every other word is kept, behind a blank unless nothing was kept before it: all but addresses, counters
      and labels that have a word behind them. */
  lemma WordKept(pre: string, x: string, post: string, l: string, c: string, r: string)
    requires Word(x, l, c, r) && !Address(c) && !Counter(c) && (Label(c) ==> Words(post) == [])
    requires EndsSpaced(pre) && !EndsInLabel(pre) && StartsSpaced(post)
    ensures Normal(pre + x) == (if Normal(pre) != "" then Normal(pre) + " " + c else c)
    ensures Normal(pre + x) <= Normal(pre + x + post)
  {
    hide Words, Kept, EndsInLabel, Trim, Word, EndsSpaced, StartsSpaced, Address, Counter, Label, Glue;
    var a := Pieces(pre);
    assert pre + x + post == pre + (x + post);
    AllPieces(pre);
    PiecesAfter(pre, x);
    PiecesAfter(pre, x + post);
    FirstKept(x, post, l, c, r);
    LoneKept(x, l, c, r);
    GlueSnoc(a, c);
    Assoc(a, [c], Kept(Words(post), 0));
    GluePrefix(a + [c], Kept(Words(post), 0));
  }

  lemma AllPieces(pre: string)
    ensures Pieces(pre) == Kept(Words(pre), 0)
  {
    hide Words, Kept, Trim;
    WordsOfTrim(pre);
  }
}
