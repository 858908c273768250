/** Exception-line normalisation: `normalize_exception`. */
module Exceptions {
  import opened Text

  predicate IsBracket(c: char) { c == '[' || c == ']' || c == ',' }

  /** `trim_matches` over brackets and commas. */
  function DropLeft(tok: string): string {
    if tok != "" && IsBracket(tok[0]) then DropLeft(tok[1..]) else tok
  }

  function DropRight(tok: string): (t: string)
    ensures t <= tok && (t == "" || !IsBracket(t[|t| - 1]))
  {
    if tok != "" && IsBracket(tok[|tok| - 1]) then DropRight(tok[..|tok| - 1]) else tok
  }

  function Bare(tok: string): string { DropRight(DropLeft(tok)) }

  predicate IsHex(t: string) {
    StartsWith(t, "0x") || (ByteLen(t) >= 4 && forall i :: 0 <= i < |t| ==> IsHexDigit(t[i]))
  }

  predicate IsNoise(t: string) { t in ["CPU:", "PID:", "Comm:", "Tainted:", "at"] }

  predicate IsCounter(t: string) {
    StartsWith(t, "#") || ('.' in t && forall i :: 0 <= i < |t| ==> IsDigit(t[i]) || t[i] == '.')
  }

  /** The bare tokens that stay from position `i` on: addresses and counters are dropped,
      and a noise word other than "at" takes the word after it along. */
  function Kept(toks: seq<string>, i: nat): seq<string>
    requires i <= |toks|
    decreases |toks| - i
  {
    if i == |toks| then []
    else
      var t := Bare(toks[i]);
      if IsHex(t) then Kept(toks, i + 1)
      else if IsNoise(t) && t != "at" && i + 1 < |toks| then Kept(toks, i + 2)
      else if IsCounter(t) then Kept(toks, i + 1)
      else [t] + Kept(toks, i + 1)
  }

  /** One more piece, behind a space unless nothing was written yet. */
  function Append(out: string, piece: string): string {
    if out != "" then out + " " + piece else piece
  }

  function Glue(pieces: seq<string>): string {
    if pieces == [] then ""
    else Append(Glue(pieces[..|pieces| - 1]), pieces[|pieces| - 1])
  }

  function Normal(line: string): string { Glue(Kept(Words(Trim(line)), 0)) }

  lemma GlueSnoc(done: seq<string>, t: string)
    ensures Glue(done + [t]) == Append(Glue(done), t)
  {
    assert (done + [t])[..|done|] == done;
  }

  /** `normalize_exception`. */
  method NormalizeException(line: string) returns (out: string)
    ensures out == Normal(line)
  {
    out := "";
    hide Words, IsHex, IsNoise, IsCounter, Bare, Trim;
    var toks := Words(Trim(line));
    var next := 0;
    ghost var done: seq<string> := [];
    while next < |toks|
      invariant 0 <= next <= |toks|
      invariant out == Glue(done)
      invariant done + Kept(toks, next) == Kept(toks, 0)
    {
      var t := Bare(toks[next]);
      next := next + 1;
      if IsHex(t) {
        continue;
      }
      if IsNoise(t) && next < |toks| {
        if t != "at" {
          next := next + 1;
          continue;
        }
      }
      if IsCounter(t) {
        continue;
      }
      GlueSnoc(done, t);
      Assoc(done, [t], Kept(toks, next));
      done := done + [t];
      if out != "" {
        out := out + " ";
      }
      out := out + t;
    }
    assert done + [] == done;
  }

  /** What is kept of a list is kept of it behind any other. */
  lemma {:induction false} KeptShift(a: seq<string>, x: seq<string>, j: nat)
    requires j <= |x|
    ensures Kept(a + x, |a| + j) == Kept(x, j)
    decreases |x| - j
  {
    hide Bare, IsHex, IsCounter, IsNoise;
    if j < |x| {
      assert (a + x)[|a| + j] == x[j];
      KeptShift(a, x, j + 1);
      if j + 1 < |x| {
        KeptShift(a, x, j + 2);
      }
    }
  }

  // ----- repeated application -----

  /** A piece that a second pass leaves as it is. */
  predicate Plain(t: string) { NoSpace(t) && Bare(t) == t && !IsHex(t) && !IsCounter(t) }

  /** Plain pieces whose only noise word, if any, is the last one. */
  ghost predicate Settled(ps: seq<string>) {
    forall i :: 0 <= i < |ps| ==> Plain(ps[i]) && (IsNoise(ps[i]) && ps[i] != "at" ==> i == |ps| - 1)
  }

  lemma {:induction false} DropLeftShape(tok: string)
    ensures var t := DropLeft(tok); EndsWith(tok, t) && (t == "" || !IsBracket(t[0]))
  {
    if tok != "" && IsBracket(tok[0]) {
      DropLeftShape(tok[1..]);
    }
  }

  lemma BareTwice(tok: string)
    ensures Bare(Bare(tok)) == Bare(tok)
    ensures NoSpace(tok) ==> NoSpace(Bare(tok))
  {
    DropLeftShape(tok);
    var l := DropLeft(tok);
    var t := DropRight(l);
    assert t == "" || t[0] == l[0];
    assert NoSpace(tok) ==> NoSpace(l);
  }

  lemma {:induction false} KeptIsSettled(toks: seq<string>, i: nat)
    requires i <= |toks| && forall j :: 0 <= j < |toks| ==> NoSpace(toks[j])
    ensures Settled(Kept(toks, i))
    decreases |toks| - i
  {
    hide Bare, IsHex, IsCounter, IsNoise, NoSpace;
    if i < |toks| {
      BareTwice(toks[i]);
      KeptIsSettled(toks, i + 1);
      if i + 1 < |toks| {
        KeptIsSettled(toks, i + 2);
      }
    }
  }

  lemma {:induction false} KeptOfSettled(ps: seq<string>, i: nat)
    requires Settled(ps) && i <= |ps|
    ensures Kept(ps, i) == ps[i..]
    decreases |ps| - i
  {
    hide Bare, IsHex, IsCounter, IsNoise, NoSpace;
    if i < |ps| {
      KeptOfSettled(ps, i + 1);
      assert ps[i..] == [ps[i]] + ps[i + 1..];
    }
  }

  function NonEmpty(ps: seq<string>): seq<string> {
    if ps == [] then []
    else NonEmpty(ps[..|ps| - 1]) + (if ps[|ps| - 1] == "" then [] else [ps[|ps| - 1]])
  }

  lemma {:induction false} NonEmptySettled(ps: seq<string>)
    requires Settled(ps)
    ensures Settled(NonEmpty(ps)) && |NonEmpty(ps)| <= |ps|
    ensures forall p :: p in NonEmpty(ps) ==> p in ps
  {
    hide Bare, IsHex, IsCounter, IsNoise, NoSpace;
    if ps != [] {
      var init, t := ps[..|ps| - 1], ps[|ps| - 1];
      NonEmptySettled(init);
      forall p | p in NonEmpty(init) ensures !(IsNoise(p) && p != "at") {
        var i :| 0 <= i < |init| && init[i] == p;
        assert ps[i] == p;
      }
    }
  }

  lemma WordsOfAppend(out: string, t: string)
    requires NoSpace(t)
    ensures Words(Append(out, t)) == Words(out) + (if t == "" then [] else [t])
  {
    if out == "" {
      LoneWord(t);
    } else if t == "" {
      assert out + " " + t == out + [' '];
      WordsBeforeSpace(out, ' ');
    } else {
      WordsSnoc(out, ' ', t);
    }
  }

  /** Splitting the glued pieces again gives the pieces that are not empty. */
  lemma {:induction false} WordsOfGlue(ps: seq<string>)
    requires forall i :: 0 <= i < |ps| ==> NoSpace(ps[i])
    ensures Words(Glue(ps)) == NonEmpty(ps)
  {
    if ps != [] {
      var init, t := ps[..|ps| - 1], ps[|ps| - 1];
      WordsOfGlue(init);
      WordsOfAppend(Glue(init), t);
    }
  }

  lemma {:induction false} NonEmptyIsNonEmpty(ps: seq<string>)
    ensures forall i :: 0 <= i < |NonEmpty(ps)| ==> NonEmpty(ps)[i] != ""
  {
    if ps != [] {
      NonEmptyIsNonEmpty(ps[..|ps| - 1]);
    }
  }

  lemma {:induction false} NonEmptyFixed(ps: seq<string>)
    requires forall i :: 0 <= i < |ps| ==> ps[i] != ""
    ensures NonEmpty(ps) == ps
  {
    if ps != [] {
      NonEmptyFixed(ps[..|ps| - 1]);
      assert ps == ps[..|ps| - 1] + [ps[|ps| - 1]];
    }
  }

  /** What a pass over glued plain pieces gives. */
  lemma NormalOfGlue(ps: seq<string>)
    requires Settled(ps)
    ensures Normal(Glue(ps)) == Glue(NonEmpty(ps))
  {
    hide Words, Kept, Trim;
    WordsOfTrim(Glue(ps));
    WordsOfGlue(ps);
    NonEmptySettled(ps);
    KeptOfSettled(NonEmpty(ps), 0);
  }

  /** The pieces the first pass keeps. */
  function Pieces(line: string): seq<string> { Kept(Words(Trim(line)), 0) }

  lemma PiecesSettled(line: string)
    ensures Settled(Pieces(line))
  {
    WordsAreWords(Trim(line));
    KeptIsSettled(Words(Trim(line)), 0);
  }

  /** The second pass drops the empty pieces, which come from tokens made of brackets and commas. */
  lemma SecondPass(line: string)
    ensures Normal(Normal(line)) == Glue(NonEmpty(Pieces(line)))
  {
    hide Kept, Words, Glue, Settled;
    PiecesSettled(line);
    NormalOfGlue(Pieces(line));
  }

  /** A third pass changes nothing, on any line. */
  lemma ThirdPass(line: string)
    ensures Normal(Normal(Normal(line))) == Normal(Normal(line))
  {
    var ps := NonEmpty(Pieces(line));
    SecondPass(line);
    PiecesSettled(line);
    NonEmptySettled(Pieces(line));
    NonEmptyIsNonEmpty(Pieces(line));
    NormalOfGlue(ps);
    NonEmptyFixed(ps);
  }

  /** Number of empty pieces after the first piece with content: each leaves a doubled or trailing space. */
  function Gaps(ps: seq<string>): nat {
    if ps == [] then 0
    else Gaps(ps[..|ps| - 1]) + (if ps[|ps| - 1] == "" && Glue(ps[..|ps| - 1]) != "" then 1 else 0)
  }

  lemma {:induction false} GlueGaps(ps: seq<string>)
    ensures |Glue(ps)| == |Glue(NonEmpty(ps))| + Gaps(ps)
    ensures Glue(ps) == "" <==> NonEmpty(ps) == []
    ensures Gaps(ps) == 0 ==> Glue(ps) == Glue(NonEmpty(ps))
  {
    if ps != [] {
      var init, t := ps[..|ps| - 1], ps[|ps| - 1];
      GlueGaps(init);
      if t != "" {
        GlueSnoc(NonEmpty(init), t);
        NonEmptyGlue(NonEmpty(init));
        NonEmptyIsNonEmpty(init);
        assert NonEmpty(ps) == NonEmpty(init) + [t];
        assert Glue(ps) == Append(Glue(init), t);
        assert Glue(NonEmpty(init)) == "" <==> NonEmpty(init) == [];
      } else {
        assert NonEmpty(ps) == NonEmpty(init) + [] == NonEmpty(init);
        assert Glue(ps) == Append(Glue(init), t);
      }
    }
  }

  lemma NonEmptyGlue(ps: seq<string>)
    ensures ps != [] && ps[|ps| - 1] != "" ==> Glue(ps) != ""
    ensures ps == [] ==> Glue(ps) == ""
  {
  }

  /** The normal form is a fixed point exactly when no empty piece follows one with content. */
  lemma IdempotentIff(line: string)
    ensures Normal(Normal(line)) == Normal(line) <==> Gaps(Pieces(line)) == 0
  {
    SecondPass(line);
    GlueGaps(Pieces(line));
  }

  /** In particular when no token consists of brackets and commas only. */
  lemma {:induction false} NoBracketTokens(toks: seq<string>, i: nat)
    requires i <= |toks| && forall j :: 0 <= j < |toks| ==> Bare(toks[j]) != ""
    ensures forall j :: 0 <= j < |Kept(toks, i)| ==> Kept(toks, i)[j] != ""
    decreases |toks| - i
  {
    hide Bare, IsHex, IsCounter, IsNoise;
    if i < |toks| {
      NoBracketTokens(toks, i + 1);
      if i + 1 < |toks| {
        NoBracketTokens(toks, i + 2);
      }
    }
  }

  lemma IdempotentWithoutBracketTokens(line: string)
    requires forall j :: 0 <= j < |Words(line)| ==> Bare(Words(line)[j]) != ""
    ensures Normal(Normal(line)) == Normal(line)
  {
    hide Words, Kept, Bare, Glue;
    WordsOfTrim(line);
    NoBracketTokens(Words(line), 0);
    SecondPass(line);
    NonEmptyFixed(Pieces(line));
  }

  lemma ExamplePieces()
    ensures Kept(["Oops", "[]"], 0) == ["Oops", ""] && Kept(["Oops"], 0) == ["Oops"]
  {
    assert Bare("[]") == "" && !IsHex("") && !IsNoise("") && !IsCounter("");
    assert Bare("Oops") == "Oops";
    assert !IsHex("Oops") by { assert !IsHexDigit("Oops"[0]); }
    assert !IsNoise("Oops") && !IsCounter("Oops");
  }

  lemma ExampleGlue()
    ensures Glue(["Oops", ""]) == "Oops " && Glue(["Oops"]) == "Oops"
  {
    GlueSnoc(["Oops"], "");
    assert ["Oops"] + [""] == ["Oops", ""];
    GlueSnoc([], "Oops");
    assert [] + ["Oops"] == ["Oops"];
  }

  /** Brackets alone leave a space behind that only the second pass removes. */
  lemma BracketTokenExample()
    ensures Normal("Oops []") == "Oops " && Normal("Oops ") == "Oops"
  {
    hide Words, Trim, Kept, Glue;
    assert "Oops []" == "Oops" + [' '] + "[]";
    LoneWord("Oops");
    WordsSnoc("Oops", ' ', "[]");
    assert ["Oops"] + ["[]"] == ["Oops", "[]"];
    WordsOfTrim("Oops []");
    assert "Oops " == "Oops" + [' '];
    WordsBeforeSpace("Oops", ' ');
    WordsOfTrim("Oops ");
    ExamplePieces();
    ExampleGlue();
  }
}
