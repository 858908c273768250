/** What a source location behind an exception line does to its normal form. */
module ExceptionTail {
  import opened Text
  import opened Exceptions

  /** The tokens of a line after another: either all of both lists are kept as before, or the first
      list ended in a noise word, which now takes the next token along. */
  ghost predicate Follows(all: seq<string>, first: seq<string>, x: seq<string>)
    requires x != []
  {
    || all == first + Kept(x, 0)
    || exists k: seq<string>, t: string ::
         first == k + [t] && IsNoise(t) && t != "at" && all == k + Kept(x, 1)
  }

  lemma FollowsCons(t: string, all: seq<string>, first: seq<string>, x: seq<string>)
    requires x != [] && Follows(all, first, x)
    ensures Follows([t] + all, [t] + first, x)
  {
    hide Kept, IsNoise;
    if all == first + Kept(x, 0) {
      Assoc([t], first, Kept(x, 0));
    } else {
      var k: seq<string>, u: string :|
        first == k + [u] && IsNoise(u) && u != "at" && all == k + Kept(x, 1);
      Assoc([t], k, [u]);
      Assoc([t], k, Kept(x, 1));
      assert [t] + first == ([t] + k) + [u];
    }
  }

  lemma {:induction false} KeptFollows(a: seq<string>, x: seq<string>, i: nat)
    requires x != [] && i <= |a|
    ensures Follows(Kept(a + x, i), Kept(a, i), x)
    decreases |a| - i
  {
    hide Bare, IsHex;
    var s := a + x;
    if i == |a| {
      KeptShift(a, x, 0);
      assert [] + Kept(x, 0) == Kept(x, 0);
    } else {
      assert s[i] == a[i];
      var t := Bare(a[i]);
      if IsHex(t) {
        KeptFollows(a, x, i + 1);
      } else if IsNoise(t) && t != "at" {
        if i + 1 < |a| {
          KeptFollows(a, x, i + 2);
        } else {
          NoiseIsNoCounter(t);
          KeptShift(a, x, 1);
          assert Kept(a, i + 1) == [];
          assert Kept(a, i) == [] + [t];
          assert [] + Kept(x, 1) == Kept(x, 1);
        }
      } else {
        KeptFollows(a, x, i + 1);
        if !IsCounter(t) {
          FollowsCons(t, Kept(s, i + 1), Kept(a, i + 1), x);
        }
      }
    }
  }

  lemma NoiseIsNoCounter(t: string)
    requires IsNoise(t) && t != "at"
    ensures !IsCounter(t) && t != "" && t[|t| - 1] == ':'
  {
    assert t == "CPU:" || t == "PID:" || t == "Comm:" || t == "Tainted:";
    assert t[0] != '#' && t[|t| - 1] == ':' && !IsDigit(':');
  }

  lemma {:induction false} NoLateNoise(x: seq<string>, i: nat)
    requires i <= |x| && x != []
    requires var t := Bare(x[|x| - 1]); !IsNoise(t) || t == "at"
    ensures forall j :: 0 <= j < |Kept(x, i)| ==> !IsNoise(Kept(x, i)[j]) || Kept(x, i)[j] == "at"
    decreases |x| - i
  {
    hide Bare, IsHex, IsCounter, IsNoise;
    if i < |x| {
      NoLateNoise(x, i + 1);
      if i + 1 < |x| {
        NoLateNoise(x, i + 2);
      }
    }
  }

  lemma {:induction false} NonEmptyConcat(a: seq<string>, b: seq<string>)
    ensures NonEmpty(a + b) == NonEmpty(a) + NonEmpty(b)
  {
    if b == [] {
      assert a + b == a;
    } else {
      var init := b[..|b| - 1];
      assert (a + b)[..|a + b| - 1] == a + init;
      NonEmptyConcat(a, init);
      Assoc(NonEmpty(a), NonEmpty(init), if b[|b| - 1] == "" then [] else [b[|b| - 1]]);
    }
  }

  lemma {:induction false} NonEmptyHas(ps: seq<string>, p: string)
    requires p != ""
    ensures p in NonEmpty(ps) <==> p in ps
  {
    if ps != [] {
      assert ps == ps[..|ps| - 1] + [ps[|ps| - 1]];
      NonEmptyHas(ps[..|ps| - 1], p);
    }
  }

  /** A token that starts with '(' is kept. */
  lemma ParenKept(x: seq<string>)
    requires x != [] && x[0] != "" && x[0][0] == '('
    ensures Kept(x, 0) != [] && Kept(x, 0)[0] != ""
  {
    var tok := x[0];
    assert DropLeft(tok) == tok;
    var t := DropRight(tok);
    ParenSurvives(tok);
    assert t[0] == '(';
  }

  lemma {:induction false} ParenSurvives(tok: string)
    requires tok != "" && tok[0] == '('
    ensures DropRight(tok) != ""
  {
    if IsBracket(tok[|tok| - 1]) {
      ParenSurvives(tok[..|tok| - 1]);
    }
  }

  /** A token that ends with ')' is no noise word. */
  lemma ParenNoNoise(tok: string)
    requires tok != "" && tok[|tok| - 1] == ')'
    ensures var t := Bare(tok); !IsNoise(t) || t == "at"
  {
    DropLeftShape(tok);
    var l := DropLeft(tok);
    assert l != "" ==> l[|l| - 1] == ')' && DropRight(l) == l;
  }

  lemma PiecesDiffer(a: seq<string>, x: seq<string>)
    requires forall i :: 0 <= i < |a| ==> NoSpace(a[i])
    requires forall i :: 0 <= i < |x| ==> NoSpace(x[i])
    requires x != [] && x[0] != "" && x[0][0] == '('
    requires var w := x[|x| - 1]; w != "" && w[|w| - 1] == ')'
    ensures NonEmpty(Kept(a + x, 0)) != NonEmpty(Kept(a, 0))
  {
    hide Kept, Bare, IsHex, IsCounter, IsNoise;
    KeptFollows(a, x, 0);
    var all, first := Kept(a + x, 0), Kept(a, 0);
    if all == first + Kept(x, 0) {
      NonEmptyConcat(first, Kept(x, 0));
      RightUnit(NonEmpty(first));
      Cancel(NonEmpty(first), NonEmpty(Kept(x, 0)), []);
      ParenKept(x);
      NonEmptyHas(Kept(x, 0), Kept(x, 0)[0]);
    } else {
      var k: seq<string>, t: string :|
        first == k + [t] && IsNoise(t) && t != "at" && all == k + Kept(x, 1);
      NonEmptyConcat(k, [t]);
      NonEmptyConcat(k, Kept(x, 1));
      Cancel(NonEmpty(k), NonEmpty([t]), NonEmpty(Kept(x, 1)));
      NoiseIsNoCounter(t);
      ParenNoNoise(x[|x| - 1]);
      NoLateNoise(x, 1);
      NonEmptyHas(Kept(x, 1), t);
      NonEmptyHas([t], t);
      assert t in NonEmpty([t]) && t !in NonEmpty(Kept(x, 1));
    }
  }

  lemma LocationText(line: string, ws: string, loc: string)
    ensures line + ws + " (" + loc + ")" == line + (ws + " ") + ("(" + loc + ")")
  {
    assert " (" == " " + "(";
  }

  lemma GapIsSpace(ws: string)
    requires AllSpace(ws)
    ensures AllSpace(ws + " ") && ws + " " != ""
  {
  }

  lemma ParenWords(loc: string)
    ensures var x := Words("(" + loc + ")");
            x != [] && x[0] != "" && x[0][0] == '(' && x[|x| - 1] != ""
    ensures var w := Words("(" + loc + ")")[|Words("(" + loc + ")")| - 1]; w[|w| - 1] == ')'
  {
    assert !IsSpace('(') && !IsSpace(')');
    hide Words, IsSpace;
    var text := "(" + loc + ")";
    assert text[0] == '(' && text[|text| - 1] == ')';
    WordEnds(text);
  }

  /** A location in parentheses behind an exception line always shows in its normal form. */
  lemma LocationShows(line: string, ws: string, loc: string)
    requires AllSpace(ws)
    ensures Normal(line + ws + " (" + loc + ")") != Normal(line)
  {
    hide Words, Kept, Glue, Trim, IsSpace, AllSpace, NoSpace;
    var text := "(" + loc + ")";
    var a, x := Words(line), Words(text);
    GapIsSpace(ws);
    LocationText(line, ws, loc);
    WordsOfConcat(line, ws + " ", text);
    WordsOfTrim(line);
    WordsOfTrim(line + ws + " (" + loc + ")");
    WordsAreWords(line);
    WordsAreWords(text);
    ParenWords(loc);
    PiecesDiffer(a, x);
    GlueShows(a + x);
    GlueShows(a);
  }

  lemma GlueShows(toks: seq<string>)
    requires forall i :: 0 <= i < |toks| ==> NoSpace(toks[i])
    ensures Words(Glue(Kept(toks, 0))) == NonEmpty(Kept(toks, 0))
  {
    hide Kept, Glue, Words, NoSpace, Bare, IsHex, IsCounter, IsNoise;
    KeptIsSettled(toks, 0);
    WordsOfGlue(Kept(toks, 0));
  }
}
