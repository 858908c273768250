/** Scrubbing of decoded text: MAC addresses first, then IPv4, then IPv6. */
module Scrub {
  import Text

  /** What matters of the regex engine's word characters (its `\w` is Unicode-aware). */
  ghost predicate WordClass(w: char -> bool) {
    (forall c :: Text.IsHexDigit(c) ==> w(c)) && w('x') && !w(':')
  }

  /** Six hex pairs with colons. */
  const MAC_LEN: nat := 17

  predicate MacChar(c: char, k: nat) { if k % 3 == 2 then c == ':' else Text.IsHexDigit(c) }

  predicate MacChars(s: string, i: nat) {
    i + MAC_LEN <= |s| && forall k: nat :: i <= k < i + MAC_LEN ==> MacChar(s[k], k - i)
  }

  /** The word character on one side of a position, if any. */
  predicate WordAt(w: char -> bool, s: string, i: int) { 0 <= i < |s| && w(s[i]) }

  /** `\b`. */
  predicate Boundary(w: char -> bool, s: string, i: int) { WordAt(w, s, i - 1) != WordAt(w, s, i) }

  /** A match of the MAC pattern at a position. */
  predicate MacAt(w: char -> bool, s: string, i: nat) {
    MacChars(s, i) && Boundary(w, s, i) && Boundary(w, s, i + MAC_LEN)
  }

  predicate HexPair(s: string, i: nat)
    requires i + 2 <= |s|
  {
    forall k :: i <= k < i + 2 ==> '0' <= s[k] <= '9' || 'a' <= s[k] <= 'f' || 'A' <= s[k] <= 'F'
  }

  predicate Pairs(s: string, i: nat)
    requires i + 17 <= |s|
  {
    && HexPair(s, i) && s[i + 2] == ':' && HexPair(s, i + 3) && s[i + 5] == ':' && HexPair(s, i + 6) && s[i + 8] == ':'
    && HexPair(s, i + 9) && s[i + 11] == ':' && HexPair(s, i + 12) && s[i + 14] == ':' && HexPair(s, i + 15)
  }

  /** In characters: six pairs of hex digits with colons between them, and no word character on either side. */
  lemma MacIs(w: char -> bool, s: string, i: nat)
    requires WordClass(w)
    ensures MacAt(w, s, i) <==>
      i + 17 <= |s| && Pairs(s, i) && (i > 0 ==> !w(s[i - 1])) && (i + 17 < |s| ==> !w(s[i + 17]))
  {
    if i + 17 <= |s| {
      MacPairs(s, i);
    }
    hide Pairs;
  }

  lemma MacPairs(s: string, i: nat)
    requires i + 17 <= |s|
    ensures MacChars(s, i) <==> Pairs(s, i)
    ensures Pairs(s, i) ==> Text.IsHexDigit(s[i]) && Text.IsHexDigit(s[i + 16])
  {
    if MacChars(s, i) {
      assert forall k: nat :: i <= k < i + 17 ==> MacChar(s[k], k - i);
    }
  }

  // ----- the MAC pass -----

  /** `$1:xx:xx:xx`. */
  function Masked(s: string, i: nat): string
    requires i + MAC_LEN <= |s|
  {
    s[i..i + 8] + ":xx:xx:xx"
  }

  /** Leftmost matches from `i` on, without overlap, replaced. */
  function MacPass(w: char -> bool, s: string, i: nat): string
    requires i <= |s|
    decreases |s| - i
  {
    if i == |s| then ""
    else if MacAt(w, s, i) then Masked(s, i) + MacPass(w, s, i + MAC_LEN)
    else [s[i]] + MacPass(w, s, i + 1)
  }

  /** The character that the pass puts at position `k`. */
  function PassAt(w: char -> bool, s: string, i: nat, k: nat): char
    requires i <= k < |s|
  {
    PassLength(w, s, i);
    MacPass(w, s, i)[k - i]
  }

  lemma {:induction false} PassLength(w: char -> bool, s: string, i: nat)
    requires i <= |s|
    ensures |MacPass(w, s, i)| == |s| - i
    decreases |s| - i
  {
    if i < |s| {
      PassLength(w, s, if MacAt(w, s, i) then i + MAC_LEN else i + 1);
    }
  }

  lemma PassNext(w: char -> bool, s: string, i: nat, k: nat)
    requires i <= k < |s|
    ensures MacAt(w, s, i) && k < i + MAC_LEN ==> PassAt(w, s, i, k) == Masked(s, i)[k - i]
    ensures MacAt(w, s, i) && i + MAC_LEN <= k ==> PassAt(w, s, i, k) == PassAt(w, s, i + MAC_LEN, k)
    ensures !MacAt(w, s, i) ==> PassAt(w, s, i, k) == if k == i then s[i] else PassAt(w, s, i + 1, k)
  {
    hide MacAt;
    PassLength(w, s, i);
    PassLength(w, s, if MacAt(w, s, i) then i + MAC_LEN else i + 1);
  }

  /** The pass only ever turns hex digits into `x`, and never outside the second half of a match. */
  lemma {:induction false} OnlyNicMasked(w: char -> bool, s: string, i: nat, k: nat)
    requires i <= k < |s|
    ensures PassAt(w, s, i, k) == s[k] ||
      (PassAt(w, s, i, k) == 'x' && Text.IsHexDigit(s[k]) && exists m: nat :: m + 9 <= k < m + MAC_LEN && MacAt(w, s, m))
    decreases |s| - i
  {
    PassNext(w, s, i, k);
    if MacAt(w, s, i) && k < i + MAC_LEN {
      MaskedAt(s, i, k - i);
    } else if MacAt(w, s, i) {
      OnlyNicMasked(w, s, i + MAC_LEN, k);
    } else if k > i {
      OnlyNicMasked(w, s, i + 1, k);
    }
  }

  lemma MaskedAt(s: string, i: nat, k: nat)
    requires MacChars(s, i) && k < MAC_LEN
    ensures Masked(s, i)[k] == if k >= 9 && k % 3 != 2 then 'x' else s[i + k]
    ensures MacChar(s[i + k], k)
  {
  }

  /** The scan misses no match: each has a character masked, its own or that of a match it overlaps. */
  lemma {:induction false} NoMatchMissed(w: char -> bool, s: string, i: nat, j: nat) returns (k: nat)
    requires i <= j && MacAt(w, s, j)
    ensures j <= k < j + MAC_LEN && PassAt(w, s, i, k) == 'x'
    decreases |s| - i
  {
    if MacAt(w, s, i) && j < i + MAC_LEN {
      k := i + 16;
      MaskedAt(s, i, 16);
    } else if MacAt(w, s, i) {
      k := NoMatchMissed(w, s, i + MAC_LEN, j);
    } else {
      k := NoMatchMissed(w, s, i + 1, j);
    }
    PassNext(w, s, i, k);
  }

  lemma NoMatchAt(w: char -> bool, s: string, j: nat)
    requires j + MAC_LEN <= |s| && forall k: nat :: j <= k < j + MAC_LEN ==> PassAt(w, s, 0, k) != 'x'
    ensures !MacAt(w, s, j)
  {
    hide MacAt, PassAt;
    if MacAt(w, s, j) {
      var k := NoMatchMissed(w, s, 0, j);
    }
  }

  /** A match that overlaps no earlier one keeps its vendor half and loses all of the other. */
  lemma {:induction false} NicMasked(w: char -> bool, s: string, i: nat, j: nat, k: nat)
    requires i <= j <= k < j + MAC_LEN <= |s| && MacAt(w, s, j)
    requires forall m: nat :: j < m + MAC_LEN && m < j ==> !MacAt(w, s, m)
    ensures PassAt(w, s, i, k) == Masked(s, j)[k - j]
    decreases |s| - i
  {
    PassNext(w, s, i, k);
    hide MacAt, PassAt;
    if i < j {
      NicMasked(w, s, if MacAt(w, s, i) then i + MAC_LEN else i + 1, j, k);
    }
  }

  lemma SameBoundaries(w: char -> bool, s: string, k: int)
    requires WordClass(w)
    ensures WordAt(w, MacPass(w, s, 0), k) == WordAt(w, s, k)
  {
    PassLength(w, s, 0);
    if 0 <= k < |s| {
      OnlyNicMasked(w, s, 0, k);
    }
  }

  /** No MAC address is left after the MAC pass. */
  lemma NoMacAfterPass(w: char -> bool, s: string, j: nat)
    requires WordClass(w)
    ensures !MacAt(w, MacPass(w, s, 0), j)
  {
    var o := MacPass(w, s, 0);
    PassLength(w, s, 0);
    hide MacPass;
    if MacChars(o, j) {
      forall k: nat | j <= k < j + MAC_LEN ensures s[k] == o[k] && PassAt(w, s, 0, k) != 'x' {
        OnlyNicMasked(w, s, 0, k);
        assert MacChar(o[k], k - j) && o[k] == PassAt(w, s, 0, k);
      }
      SameBoundaries(w, s, j - 1);
      SameBoundaries(w, s, j);
      SameBoundaries(w, s, j + MAC_LEN - 1);
      SameBoundaries(w, s, j + MAC_LEN);
      NoMatchAt(w, s, j);
    }
  }

  // ----- a pass that masks pieces of the text -----

  /** How a regex with a replacement cuts its input: characters that stay, matches that are replaced. */
  datatype Cell = Char(c: char) | Mask(matched: string)

  function Source(cells: seq<Cell>): string {
    if cells == [] then ""
    else (if cells[0].Char? then [cells[0].c] else cells[0].matched) + Source(cells[1..])
  }

  function Output(cells: seq<Cell>, rep: string): string {
    if cells == [] then ""
    else (if cells[0].Char? then [cells[0].c] else rep) + Output(cells[1..], rep)
  }

  /** A replacement that starts and ends with `x` and is no longer than a MAC address. */
  predicate Bordered(rep: string) { 0 < |rep| <= MAC_LEN && rep[0] == 'x' && rep[|rep| - 1] == 'x' }

  /** A match at the start of the rest of a text, given whether a word character is before it. */
  predicate Starts(w: char -> bool, prev: bool, s: string) {
    !prev && MacChars(s, 0) && !WordAt(w, s, MAC_LEN)
  }

  /** A match in the rest of a text. */
  predicate HasMac(w: char -> bool, prev: bool, s: string)
    decreases |s|
  {
    s != "" && (Starts(w, prev, s) || HasMac(w, w(s[0]), s[1..]))
  }

  lemma StartsIsMacAt(w: char -> bool, s: string, i: nat)
    requires WordClass(w) && i <= |s|
    ensures Starts(w, WordAt(w, s, i - 1), s[i..]) <==> MacAt(w, s, i)
  {
    var r := s[i..];
    if i + MAC_LEN <= |s| {
      assert MacChars(r, 0) <==> MacChars(s, i) by {
        assert forall k: nat :: k < MAC_LEN ==> r[k] == s[i + k];
        assert forall k: nat :: i <= k < i + MAC_LEN ==> s[k] == r[k - i];
      }
      if MacChars(s, i) {
        assert MacChar(s[i], 0) && MacChar(s[i + 16], 16);
      }
    }
  }

  lemma {:induction false} HasMacIff(w: char -> bool, s: string, i: nat)
    requires WordClass(w) && i <= |s|
    ensures HasMac(w, WordAt(w, s, i - 1), s[i..]) <==> exists j: nat :: i <= j && MacAt(w, s, j)
    decreases |s| - i
  {
    StartsIsMacAt(w, s, i);
    if i < |s| {
      assert s[i..][1..] == s[i + 1..];
      HasMacIff(w, s, i + 1);
      hide MacAt, Starts;
      if HasMac(w, WordAt(w, s, i), s[i + 1..]) {
        var j: nat :| i + 1 <= j && MacAt(w, s, j);
      }
    }
  }

  /** A match in a suffix is a match in the text. */
  lemma {:induction false} InSuffix(w: char -> bool, prev: bool, t: string, s: string)
    requires HasMac(w, if t == "" then prev else w(t[|t| - 1]), s)
    ensures HasMac(w, prev, t + s)
    decreases |t|
  {
    if t == "" {
      assert t + s == s;
    } else {
      assert (t + s)[1..] == t[1..] + s;
      InSuffix(w, w(t[0]), t[1..], s);
    }
  }

  /** Text without `x` at the start of the output comes from the same text at the start of the input,
      and if no word character follows it there, none follows it in the input. */
  lemma {:induction false} SamePrefix(w: char -> bool, cells: seq<Cell>, rep: string, n: nat)
    requires WordClass(w) && Bordered(rep) && n <= |Output(cells, rep)|
    requires forall k :: 0 <= k < n ==> Output(cells, rep)[k] != 'x'
    ensures n <= |Source(cells)| && Source(cells)[..n] == Output(cells, rep)[..n]
    ensures !WordAt(w, Output(cells, rep), n) ==> !WordAt(w, Source(cells), n)
    decreases |cells|
  {
    if cells != [] {
      if cells[0].Char? {
        if n > 0 {
          var o, s := Output(cells[1..], rep), Source(cells[1..]);
          assert Output(cells, rep) == [cells[0].c] + o && Source(cells) == [cells[0].c] + s;
          forall k | 0 <= k < n - 1 ensures o[k] != 'x' {
            assert o[k] == Output(cells, rep)[k + 1];
          }
          SamePrefix(w, cells[1..], rep, n - 1);
          hide Output, Source;
          assert Output(cells, rep)[..n] == [cells[0].c] + o[..n - 1] && Source(cells)[..n] == [cells[0].c] + s[..n - 1];
        }
      } else {
        assert Output(cells, rep)[0] == 'x';
      }
    }
  }

  /** No match starts inside a replacement: its last `x` would be part of it. */
  lemma {:induction false} NotInside(w: char -> bool, prev: bool, rep: string, o: string)
    requires 0 < |rep| <= MAC_LEN && rep[|rep| - 1] == 'x'
    ensures HasMac(w, prev, rep + o) ==> HasMac(w, w('x'), o)
    decreases |rep|
  {
    var s := rep + o;
    assert !Starts(w, prev, s) by {
      assert s[|rep| - 1] == 'x' && !MacChar('x', |rep| - 1);
    }
    assert s[1..] == rep[1..] + o;
    if |rep| == 1 {
      assert s[1..] == o;
    } else {
      NotInside(w, w(s[0]), rep[1..], o);
    }
  }

  lemma SameStart(s: string, t: string)
    requires MacChars(s, 0) && MAC_LEN <= |t| && t[..MAC_LEN] == s[..MAC_LEN]
    ensures MacChars(t, 0)
  {
    forall k: nat | k < MAC_LEN ensures MacChar(t[k], k) {
      assert t[..MAC_LEN][k] == s[..MAC_LEN][k] && MacChar(s[k], k);
    }
  }

  /** A replacement creates no MAC address, wherever the matches are. */
  lemma {:induction false} MaskingMakesNoMac(w: char -> bool, prev: bool, before: bool, cells: seq<Cell>, rep: string)
    requires WordClass(w) && Bordered(rep) && (before == prev || prev)
    requires HasMac(w, prev, Output(cells, rep))
    ensures HasMac(w, before, Source(cells))
    decreases |cells|
  {
    var rest := cells[1..];
    var o, s := Output(rest, rep), Source(rest);
    if cells[0].Char? {
      var out := Output(cells, rep);
      assert out == [cells[0].c] + o && out[1..] == o && Source(cells)[1..] == s;
      if Starts(w, prev, out) {
        forall k | 0 <= k < MAC_LEN ensures out[k] != 'x' { assert MacChar(out[k], k); }
        SamePrefix(w, cells, rep, MAC_LEN);
        SameStart(out, Source(cells));
      } else {
        MaskingMakesNoMac(w, w(cells[0].c), w(cells[0].c), rest, rep);
      }
    } else {
      var t := cells[0].matched;
      NotInside(w, prev, rep, o);
      MaskingMakesNoMac(w, true, if t == "" then before else w(t[|t| - 1]), rest, rep);
      InSuffix(w, before, t, s);
    }
  }

  // ----- scrub -----

  const IPV4_MASK := "x.x.x.x"
  const IPV6_MASK := "x:x::x"

  /** `scrub`, for any way in which the two IP patterns cut a text. */
  function Scrub(w: char -> bool, ipv4: string -> seq<Cell>, ipv6: string -> seq<Cell>, text: string): string {
    Output(ipv6(Output(ipv4(MacPass(w, text, 0)), IPV4_MASK)), IPV6_MASK)
  }

  /** No MAC address survives: the scan misses none, and the two later passes make no new one. */
  lemma NoMacSurvives(w: char -> bool, ipv4: string -> seq<Cell>, ipv6: string -> seq<Cell>, text: string, j: nat)
    requires WordClass(w) && forall s :: Source(ipv4(s)) == s && Source(ipv6(s)) == s
    ensures !MacAt(w, Scrub(w, ipv4, ipv6, text), j)
  {
    var s1 := MacPass(w, text, 0);
    var s2 := Output(ipv4(s1), IPV4_MASK);
    var s3 := Output(ipv6(s2), IPV6_MASK);
    forall i: nat ensures !MacAt(w, s1, i) { NoMacAfterPass(w, text, i); }
    assert Source(ipv4(s1)) == s1 && Source(ipv6(s2)) == s2;
    hide MacAt, MacPass, Source, Output;
    Keeps(w, ipv4(s1), IPV4_MASK);
    Keeps(w, ipv6(s2), IPV6_MASK);
  }

  lemma Keeps(w: char -> bool, cells: seq<Cell>, rep: string)
    requires WordClass(w) && Bordered(rep) && forall i: nat :: !MacAt(w, Source(cells), i)
    ensures forall i: nat :: !MacAt(w, Output(cells, rep), i)
  {
    var s, o := Source(cells), Output(cells, rep);
    assert s[0..] == s && o[0..] == o;
    HasMacIff(w, s, 0);
    HasMacIff(w, o, 0);
    hide MacAt, Source, Output;
    if HasMac(w, false, o) {
      MaskingMakesNoMac(w, false, false, cells, rep);
    }
  }

  // ----- where the IP patterns match -----

  /** A text without a match. */
  function Unmatched(s: string): seq<Cell> { seq(|s|, i requires 0 <= i < |s| => Char(s[i])) }

  lemma {:induction false} OutputUnmatched(s: string, rest: seq<Cell>, rep: string)
    ensures Output(Unmatched(s) + rest, rep) == s + Output(rest, rep)
  {
    if s == "" {
      assert Unmatched(s) + rest == rest;
    } else {
      var cells := Unmatched(s) + rest;
      assert cells[0] == Char(s[0]) && cells[1..] == Unmatched(s[1..]) + rest;
      OutputUnmatched(s[1..], rest, rep);
      assert s == [s[0]] + s[1..];
      Text.Assoc([s[0]], s[1..], Output(rest, rep));
    }
  }

  lemma OutputMatch(a: string, m: string, b: string, rep: string)
    ensures Output(Unmatched(a) + [Mask(m)] + Unmatched(b), rep) == a + rep + b
  {
    var tail := [Mask(m)] + Unmatched(b);
    assert Unmatched(a) + [Mask(m)] + Unmatched(b) == Unmatched(a) + tail;
    OutputUnmatched(a, tail, rep);
    assert tail[1..] == Unmatched(b);
    OutputUnmatched(b, [], rep);
    assert Unmatched(b) + [] == Unmatched(b);
    assert b + "" == b;
    Text.Assoc(a, rep, b);
  }

  /** An address that the first IP pattern matches becomes x.x.x.x, and one that the second matches x:x::x; the
      text around it stays. */
  lemma AddressMasked(w: char -> bool, ipv4: string -> seq<Cell>, ipv6: string -> seq<Cell>, text: string, a: string, m: string, b: string)
    ensures ipv4(MacPass(w, text, 0)) == Unmatched(a) + [Mask(m)] + Unmatched(b)
            && ipv6(a + "x.x.x.x" + b) == Unmatched(a + "x.x.x.x" + b)
            ==> Scrub(w, ipv4, ipv6, text) == a + "x.x.x.x" + b
    ensures ipv4(MacPass(w, text, 0)) == Unmatched(a + m + b) && ipv6(a + m + b) == Unmatched(a) + [Mask(m)] + Unmatched(b)
            ==> Scrub(w, ipv4, ipv6, text) == a + "x:x::x" + b
  {
    hide Output, MacPass;
    OutputMatch(a, m, b, "x.x.x.x");
    OutputMatch(a, m, b, "x:x::x");
    Whole(a + "x.x.x.x" + b, "x:x::x");
    Whole(a + m + b, "x.x.x.x");
  }

  lemma Whole(s: string, rep: string)
    ensures Output(Unmatched(s), rep) == s
  {
    OutputUnmatched(s, [], rep);
    assert Unmatched(s) + [] == Unmatched(s) && s + "" == s;
  }
}
