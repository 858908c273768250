/** Symbolisation of trace lines: `annotate`. */
module Annotate {
  import opened Wrappers
  import opened Text

  // ----- the frame pattern -----

  predicate IsAlnum(c: char) { IsDigit(c) || 'a' <= c <= 'z' || 'A' <= c <= 'Z' }

  predicate IsSymbolChar(c: char) { IsAlnum(c) || c == '_' || c == '.' }

  predicate IsModuleChar(c: char) { IsAlnum(c) || c == '_' || c == '-' }

  /** End of the longest run of characters of a class, from position `i`. */
  function RunEnd(s: string, i: nat, p: char -> bool): (e: nat)
    requires i <= |s|
    ensures i <= e <= |s|
    decreases |s| - i
  {
    if i < |s| && p(s[i]) then RunEnd(s, i + 1, p) else i
  }

  lemma {:induction false} RunChars(s: string, i: nat, p: char -> bool)
    requires i <= |s|
    ensures forall k :: i <= k < RunEnd(s, i, p) ==> p(s[k])
    ensures RunEnd(s, i, p) < |s| ==> !p(s[RunEnd(s, i, p)])
    decreases |s| - i
  {
    if i < |s| && p(s[i]) {
      RunChars(s, i + 1, p);
    }
  }

  lemma {:induction false} RunIs(s: string, i: nat, p: char -> bool, e: nat)
    requires i <= e <= |s| && (forall k :: i <= k < e ==> p(s[k])) && (e < |s| ==> !p(s[e]))
    ensures RunEnd(s, i, p) == e
    decreases e - i
  {
    if i < e {
      RunIs(s, i + 1, p, e);
    }
  }

  /** A match of the frame pattern: symbol, offset digits and module. */
  datatype Capture = Capture(symbol: string, digits: string, modName: Option<string>)

  /** The optional " [module]" behind a frame. */
  function ModuleAt(line: string, i: nat): Option<string>
    requires i <= |line|
  {
    var j := RunEnd(line, i, IsSpace);
    if j == i || j == |line| || line[j] != '[' then None
    else
      var k := RunEnd(line, j + 1, IsModuleChar);
      if k == j + 1 || k == |line| || line[k] != ']' then None else Some(line[j + 1..k])
  }

  /** The pattern anchored at position `i`; each run ends at a character outside its class, so the
      longest runs are the only way to match. */
  function MatchAt(line: string, i: nat): (r: Option<Capture>)
    requires i <= |line|
    ensures r.Some? ==> Contains(line, OFFSET)
  {
    var j := RunEnd(line, i, IsSymbolChar);
    if j == i || !OccursAt(line, OFFSET, j) then None
    else
      var k := RunEnd(line, j + 3, IsHexDigit);
      if k == j + 3 || !OccursAt(line, "/0x", k) then None
      else
        var e := RunEnd(line, k + 3, IsHexDigit);
        if e == k + 3 then None
        else Some(Capture(line[i..j], line[j + 3..k], ModuleAt(line, e)))
  }

  /** The leftmost match. */
  function FirstMatch(line: string, i: nat): (r: Option<Capture>)
    requires i <= |line|
    ensures r.Some? ==> Contains(line, OFFSET)
    decreases |line| - i
  {
    if MatchAt(line, i).Some? then MatchAt(line, i)
    else if i < |line| then FirstMatch(line, i + 1)
    else None
  }

  function HexValue(digits: string): nat {
    if digits == "" then 0
    else 16 * HexValue(digits[..|digits| - 1]) + HexDigit(digits[|digits| - 1])
  }

  function HexDigit(c: char): nat {
    if '0' <= c <= '9' then c as int - '0' as int
    else if 'a' <= c <= 'f' then c as int - 'a' as int + 10
    else if 'A' <= c <= 'F' then c as int - 'A' as int + 10
    else 0
  }

  /** `u64::from_str_radix(..).unwrap_or(0)`. */
  function Offset(digits: string): nat {
    if HexValue(digits) < 0x1_0000_0000_0000_0000 then HexValue(digits) else 0
  }

  // ----- annotating -----

  /** Source locations of symbol, offset and module; the symbol files themselves are not modelled. */
  type Resolver = (string, nat, Option<string>) -> Option<string>

  function Location(line: string, resolve: Resolver): Option<string> {
    match FirstMatch(line, 0)
    case Some(c) => resolve(c.symbol, Offset(c.digits), c.modName)
    case None => None
  }

  function AnnotatedLine(line: string, resolve: Resolver): string {
    match Location(line, resolve)
    case Some(loc) => line + " (" + loc + ")"
    case None => line
  }

  function AnnotatedLines(ls: seq<string>, resolve: Resolver): (r: seq<string>)
    ensures |r| == |ls| && forall i :: 0 <= i < |ls| ==> r[i] == AnnotatedLine(ls[i], resolve)
  {
    seq(|ls|, i requires 0 <= i < |ls| => AnnotatedLine(ls[i], resolve))
  }

  function Annotated(text: string, resolve: Resolver): string {
    Unlines(AnnotatedLines(Lines(text), resolve))
  }

  lemma {:induction false} UnlinesSnoc(ls: seq<string>, l: string)
    ensures Unlines(ls + [l]) == Unlines(ls) + l + "\n"
  {
    if ls == [] {
      assert ls + [l] == [l];
    } else {
      assert (ls + [l])[0] == ls[0] && (ls + [l])[1..] == ls[1..] + [l];
      UnlinesSnoc(ls[1..], l);
      var h, u := ls[0] + "\n", Unlines(ls[1..]);
      Assoc(h, u + l, "\n");
      Assoc(h, u, l);
    }
  }

  /** `annotate`. */
  method Annotate(text: string, resolve: Resolver) returns (out: string)
    ensures out == Annotated(text, resolve)
  {
    hide Lines, Unlines, FirstMatch;
    out := "";
    var ls := Lines(text);
    ghost var done := AnnotatedLines(ls, resolve);
    assert Unlines(done[..0]) == "" by { NoLines(done); }
    for i := 0 to |ls|
      invariant out == Unlines(done[..i])
    {
      var line := ls[i];
      assert done[..i + 1] == done[..i] + [done[i]];
      UnlinesSnoc(done[..i], done[i]);
      ghost var before := out;
      out := out + line;
      var c := FirstMatch(line, 0);
      if c.Some? {
        var loc := resolve(c.value.symbol, Offset(c.value.digits), c.value.modName);
        if loc.Some? {
          Assoc(before, line, " (" + loc.value + ")");
          assert line + " (" + loc.value + ")" == line + (" (" + loc.value + ")");
          out := out + (" (" + loc.value + ")");
        }
      }
      out := out + "\n";
    }
    assert done[..|ls|] == done;
  }

  lemma NoLines(ls: seq<string>)
    ensures Unlines(ls[..0]) == ""
  {
  }
}
