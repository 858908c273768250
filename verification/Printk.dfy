/** Kernel log prefixes: `strip_printk_prefix`. */
module Printk {
  import opened Wrappers
  import opened Text

  predicate AllDigits(s: string) { forall i :: 0 <= i < |s| ==> IsDigit(s[i]) }

  predicate DigitsOrDots(s: string) { forall i :: 0 <= i < |s| ==> IsDigit(s[i]) || s[i] == '.' }

  /** A syslog level "<7>" at the front, and the text behind it. */
  function SplitLevel(s: string): Option<(string, string)> {
    if StartsWith(s, "<") then
      match SplitOnce(s[1..], ">")
      case Some((level, rest)) => if level != "" && AllDigits(level) then Some((level, rest)) else None
      case None => None
    else None
  }

  function DropLevel(s: string): string {
    match SplitLevel(s)
    case Some((_, rest)) => TrimStart(rest)
    case None => s
  }

  /** A leading timestamp, bracketed or bare, and the text behind it. */
  function SplitStamp(s: string): Option<(string, string)> {
    if StartsWith(s, "[") then
      match SplitOnce(s[1..], "]")
      case Some((ts, rest)) => if DigitsOrDots(Trim(ts)) then Some((ts, rest)) else None
      case None => None
    else
      match SplitOnce(s, " ")
      case Some((ts, rest)) => if '.' in ts && DigitsOrDots(ts) then Some((ts, rest)) else None
      case None => None
  }

  function DropStamp(s: string): string {
    match SplitStamp(s)
    case Some((_, rest)) => rest
    case None => s
  }

  /** `strip_printk_prefix`. */
  function Strip(raw: string): string { Trim(DropStamp(DropLevel(TrimStart(raw)))) }

  // ----- every valid prefix is removed -----

  /** The prefix shapes of the kernel log: "[ts]", "<n>[ts]", "<n> ts" and "ts". */
  datatype Prefix = Prefix(lead: string, level: Option<string>, gap: string, bracketed: bool, stamp: string)

  ghost predicate Valid(p: Prefix) {
    && AllSpace(p.lead) && AllSpace(p.gap)
    && (p.level.Some? ==> p.level.value != "" && AllDigits(p.level.value))
    && (if p.bracketed then DigitsOrDots(Trim(p.stamp)) else '.' in p.stamp && DigitsOrDots(p.stamp))
  }

  function LevelText(level: Option<string>): string {
    if level.Some? then "<" + level.value + ">" else ""
  }

  function StampText(p: Prefix): string {
    if p.bracketed then "[" + p.stamp + "]" else p.stamp + " "
  }

  function Render(p: Prefix): string { p.lead + LevelText(p.level) + p.gap + StampText(p) }

  lemma LevelDropped(n: string, gap: string, rest: string)
    requires n != "" && AllDigits(n) && AllSpace(gap) && rest != "" && !IsSpace(rest[0])
    ensures DropLevel("<" + n + ">" + (gap + rest)) == rest
  {
    hide SplitOnce, TrimStart, IsSpace;
    var s := "<" + n + ">" + (gap + rest);
    assert s[1..] == n + ">" + (gap + rest);
    SplitOnceAt(n, '>', gap + rest);
    TrimStartIs(gap, rest);
  }

  lemma NoBracketInside(stamp: string)
    requires DigitsOrDots(Trim(stamp))
    ensures ']' !in stamp
  {
    hide Trim;
    if ']' in stamp {
      SolidInTrim(stamp, ']');
    }
  }

  lemma BracketStampDropped(stamp: string, msg: string)
    requires DigitsOrDots(Trim(stamp))
    ensures DropStamp("[" + stamp + "]" + msg) == msg
  {
    hide SplitOnce, Trim, IsSpace;
    NoBracketInside(stamp);
    hide DigitsOrDots;
    var s := "[" + stamp + "]" + msg;
    assert s[1..] == stamp + "]" + msg;
    SplitOnceAt(stamp, ']', msg);
  }

  lemma BareStampDropped(stamp: string, msg: string)
    requires '.' in stamp && DigitsOrDots(stamp)
    ensures DropStamp(stamp + " " + msg) == msg
  {
    hide SplitOnce, Trim;
    assert (stamp + " " + msg)[0] == stamp[0];
    SplitOnceAt(stamp, ' ', msg);
  }

  lemma StampDropped(p: Prefix, msg: string)
    requires Valid(p)
    ensures var s := StampText(p) + msg; s != "" && !IsSpace(s[0]) && s[0] != '<' && DropStamp(s) == msg
  {
    hide DropStamp, Trim;
    var s := StampText(p) + msg;
    assert s[0] == if p.bracketed then '[' else p.stamp[0];
    if p.bracketed {
      BracketStampDropped(p.stamp, msg);
    } else {
      BareStampDropped(p.stamp, msg);
    }
  }

  /** Stripping undoes prefixing: only the message is left, trimmed. */
  lemma PrefixStripped(p: Prefix, msg: string)
    requires Valid(p)
    ensures Strip(Render(p) + msg) == Trim(msg)
  {
    var s := StampText(p) + msg;
    StampDropped(p, msg);
    assert DropLevel(s) == s;
    LevelGone(p, s);
    Assoc(p.lead + LevelText(p.level) + p.gap, StampText(p), msg);
  }

  lemma LevelGone(p: Prefix, s: string)
    requires Valid(p) && s != "" && !IsSpace(s[0]) && DropLevel(s) == s
    ensures DropLevel(TrimStart(p.lead + LevelText(p.level) + p.gap + s)) == s
  {
    NotSpaces();
    hide TrimStart, DropLevel, IsSpace, AllDigits, DigitsOrDots;
    if p.level.Some? {
      var n := p.level.value;
      var t := "<" + n + ">" + (p.gap + s);
      Concat4(p.lead, LevelText(p.level), p.gap, s);
      assert t[0] == '<';
      TrimStartIs(p.lead, t);
      LevelDropped(n, p.gap, s);
    } else {
      assert p.lead + "" + p.gap + s == (p.lead + p.gap) + s;
      TrimStartIs(p.lead + p.gap, s);
    }
  }

  lemma Concat4(a: string, b: string, c: string, d: string)
    ensures a + b + c + d == a + (b + (c + d))
  {
  }

  lemma NotSpaces()
    ensures !IsSpace('<') && !IsSpace('+') && !IsSpace(')') && IsSpace('\r') && IsSpace(' ')
  {
  }

  // ----- text after a line leaves its prefix alone -----

  lemma PlusBlocks(x: string)
    requires '+' in x
    ensures !AllDigits(x) && !DigitsOrDots(x) && !DigitsOrDots(Trim(x))
  {
    SolidInTrim(x, '+');
  }

  lemma TrimStartTail(s: string, tail: string)
    requires '+' in s
    ensures TrimStart(s + tail) == TrimStart(s) + tail && '+' in TrimStart(s)
    ensures '+' !in s[..|s| - |TrimStart(s)|]
  {
    NotSpaces();
    hide IsSpace, TrimStart;
    var t := TrimStart(s);
    var sp := s[..|s| - |t|];
    TrimStartParts(s);
    assert s == sp + t;
    NotInSpace(sp, '+');
    assert s + tail == sp + (t + tail);
    TrimStartIs(sp, t + tail);
  }

  lemma LevelTextTail(n: string, r: string, tail: string)
    requires '+' !in n && '+' in r
    ensures var s := "<" + n + ">" + r; var t := TrimStart(r);
      && s == "<" + n + ">" + r[..|r| - |t|] + t && '+' !in "<" + n + ">" + r[..|r| - |t|]
      && TrimStart(r + tail) == t + tail && '+' in t
  {
    hide TrimStart;
    TrimStartTail(r, tail);
    TrimStartParts(r);
    assert r == r[..|r| - |TrimStart(r)|] + TrimStart(r);
  }

  lemma SplitLevelTail(s: string, tail: string)
    requires '+' in s
    ensures match SplitLevel(s)
            case Some((n, r)) => s == "<" + n + ">" + r && '+' !in n && SplitLevel(s + tail) == Some((n, r + tail))
            case None => SplitLevel(s + tail) == None
  {
    hide SplitOnce;
    if StartsWith(s, "<") {
      var rest := s[1..];
      assert s == "<" + rest && (s + tail)[1..] == rest + tail;
      assert '+' in rest;
      FieldTail(rest, '>', tail);
    } else {
      assert (s + tail)[0] == s[0];
    }
  }

  /** A field that only ends in the appended text has the '+' in it. */
  lemma FieldTail(s: string, c: char, tail: string)
    requires '+' in s
    ensures match SplitOnce(s, [c])
            case Some((a, b)) => s == a + [c] + b && SplitOnce(s + tail, [c]) == Some((a, b + tail))
            case None => match SplitOnce(s + tail, [c])
                         case Some((a, b)) => !AllDigits(a) && !DigitsOrDots(a) && !DigitsOrDots(Trim(a))
                         case None => true
    ensures match SplitOnce(s, [c])
            case Some((a, b)) => AllDigits(a) || DigitsOrDots(a) || DigitsOrDots(Trim(a)) ==> '+' !in a
            case None => true
  {
    hide SplitOnce, Trim, AllDigits, DigitsOrDots;
    SplitOnceParts(s, c);
    SplitOnceTail(s, c, tail);
    match SplitOnce(s, [c])
    case Some((a, b)) =>
      if '+' in a {
        PlusBlocks(a);
      }
    case None =>
      match SplitOnce(s + tail, [c])
      case Some((a, b)) =>
        assert '+' in a by { assert forall i :: 0 <= i < |s| ==> s[i] == a[i]; }
        PlusBlocks(a);
      case None =>
  }

  lemma DropLevelTail(s: string, tail: string) returns (pre: string)
    requires '+' in s
    ensures s == pre + DropLevel(s) && '+' !in pre
    ensures DropLevel(s + tail) == DropLevel(s) + tail
  {
    hide TrimStart, SplitLevel;
    SplitLevelTail(s, tail);
    match SplitLevel(s)
    case Some((n, r)) =>
      assert '+' in "<" + n + ">" + r;
      LevelTextTail(n, r, tail);
      pre := "<" + n + ">" + r[..|r| - |TrimStart(r)|];
    case None =>
      pre := "";
  }

  lemma DropStampTail(s: string, tail: string) returns (pre: string)
    requires '+' in s
    ensures s == pre + DropStamp(s) && '+' !in pre
    ensures DropStamp(s + tail) == DropStamp(s) + tail
  {
    hide SplitOnce, Trim;
    assert (s + tail)[0] == s[0];
    if StartsWith(s, "[") {
      var rest := s[1..];
      assert s == "[" + rest && (s + tail)[1..] == rest + tail;
      assert '+' in rest;
      FieldTail(rest, ']', tail);
      pre := match SplitStamp(s) case Some((ts, _)) => "[" + ts + "]" case None => "";
    } else {
      FieldTail(s, ' ', tail);
      pre := match SplitStamp(s) case Some((ts, _)) => ts + " " case None => "";
    }
  }

  lemma TrimTail(s: string, tail: string) returns (ws: string)
    requires '+' in s && tail != "" && !IsSpace(tail[|tail| - 1])
    ensures AllSpace(ws) && Trim(s + tail) == Trim(s) + ws + tail
  {
    hide TrimStart, TrimEnd, IsSpace;
    TrimStartTail(s, tail);
    var t := TrimStart(s);
    var r := TrimEnd(t);
    ws := t[|r|..];
    TrimEndParts(t);
    TrimEndIs(t + tail, "");
    assert t + tail + "" == t + tail;
    assert t == r + ws;
  }

  lemma Nested(a: string, b: string, c: string, d: string, e: string, f: string)
    ensures a + (b + (c + (d + e + f))) == (a + b + c + d) + e + f
  {
  }

  lemma NoPlus(a: string, b: string, c: string, d: string)
    requires '+' !in a && '+' !in b && '+' !in c && '+' !in d
    ensures '+' !in a + b + c + d
  {
  }

  /** A line with a '+' in it, such as a trace frame: what the stripping takes off its front holds
      no '+', and text appended to the line is simply appended to the stripped line. */
  lemma StripTail(raw: string, tail: string) returns (pre: string, post: string, ws: string)
    requires '+' in raw && tail != "" && !IsSpace(tail[|tail| - 1])
    ensures raw == pre + Strip(raw) + post && '+' !in pre && AllSpace(post)
    ensures AllSpace(ws) && Strip(raw + tail) == Strip(raw) + ws + tail
  {
    NotSpaces();
    hide TrimStart, Trim, DropLevel, DropStamp, IsSpace, AllSpace;
    TrimStartTail(raw, tail);
    var t := TrimStart(raw);
    var p1 := raw[..|raw| - |t|];
    var p2 := DropLevelTail(t, tail);
    var u := DropLevel(t);
    assert '+' in u;
    var p3 := DropStampTail(u, tail);
    var v := DropStamp(u);
    assert '+' in v;
    ws := TrimTail(v, tail);
    var a, b := TrimParts(v);
    NotInSpace(a, '+');
    NoPlus(p1, p2, p3, a);
    pre, post := p1 + p2 + p3 + a, b;
    TrimStartParts(raw);
    assert raw == p1 + t;
    Nested(p1, p2, p3, a, Trim(v), b);
  }

  // ----- a carriage return at the end of the line is invisible -----

  lemma TrimStartSnoc(s: string, c: char)
    requires IsSpace(c)
    ensures TrimStart(s + [c]) == if AllSpace(s) then "" else TrimStart(s) + [c]
    ensures AllSpace(s) <==> TrimStart(s) == ""
  {
    hide TrimStart, IsSpace;
    var t := TrimStart(s);
    var sp := s[..|s| - |t|];
    TrimStartParts(s);
    assert s == sp + t;
    if AllSpace(s) {
      assert s + "" == s && s + [c] + "" == s + [c];
      TrimStartIs(s, "");
      TrimStartIs(s + [c], "");
    } else {
      assert sp + "" == sp;
      assert t != "";
      assert s + [c] == sp + (t + [c]);
      TrimStartIs(sp, t + [c]);
    }
  }

  lemma TrimEndSnoc(t: string, c: char)
    requires IsSpace(c)
    ensures TrimEnd(t + [c]) == TrimEnd(t)
  {
    hide TrimEnd, IsSpace;
    var r := TrimEnd(t);
    TrimEndParts(t);
    assert t + [c] == r + (t[|r|..] + [c]);
    TrimEndIs(r, t[|r|..] + [c]);
  }

  lemma TrimSnoc(s: string, c: char)
    requires IsSpace(c)
    ensures Trim(s + [c]) == Trim(s)
  {
    hide TrimEnd, TrimStart, IsSpace;
    TrimStartSnoc(s, c);
    TrimEndSnoc(TrimStart(s), c);
  }

  lemma SplitOnceCr(s: string, c: char)
    requires c != '\r'
    ensures match SplitOnce(s, [c])
            case Some((a, b)) => SplitOnce(s + "\r", [c]) == Some((a, b + "\r"))
            case None => SplitOnce(s + "\r", [c]) == None
  {
    hide SplitOnce;
    SplitOnceTail(s, c, "\r");
    SplitOnceParts(s, c);
    SplitOnceParts(s + "\r", c);
    if SplitOnce(s, [c]).None? {
      assert c !in s + "\r";
      assert SplitOnce(s + "\r", [c]).Some? ==> c in s + "\r";
    }
  }

  lemma SplitLevelCr(s: string)
    requires s != ""
    ensures match SplitLevel(s)
            case Some((n, r)) => SplitLevel(s + "\r") == Some((n, r + "\r"))
            case None => SplitLevel(s + "\r") == None
  {
    hide SplitOnce;
    assert (s + "\r")[0] == s[0] && (s + "\r")[1..] == s[1..] + "\r";
    SplitOnceCr(s[1..], '>');
  }

  lemma DropLevelCr(s: string)
    requires s != ""
    ensures var r := DropLevel(s); DropLevel(s + "\r") == r + "\r" || (r == "" && DropLevel(s + "\r") == "")
  {
    NotSpaces();
    hide TrimStart, IsSpace, SplitLevel;
    SplitLevelCr(s);
    match SplitLevel(s)
    case Some((_, r)) => TrimStartSnoc(r, '\r');
    case None =>
  }

  lemma DropStampCr(s: string)
    ensures DropStamp(s + "\r") == DropStamp(s) + "\r"
  {
    hide SplitOnce, Trim;
    SplitOnceCr(s, ' ');
    if s != "" {
      assert (s + "\r")[0] == s[0] && (s + "\r")[1..] == s[1..] + "\r";
      SplitOnceCr(s[1..], ']');
    } else {
      assert (s + "\r")[0] == '\r';
      SplitOnceParts(s, ' ');
    }
  }

  lemma StripCarriageReturn(s: string)
    ensures Strip(s + "\r") == Strip(s)
  {
    NotSpaces();
    hide Trim, TrimStart, DropLevel, DropStamp, IsSpace;
    TrimStartSnoc(s, '\r');
    var t := TrimStart(s);
    if !AllSpace(s) {
      DropLevelCr(t);
      var u := DropLevel(t);
      DropStampCr(u);
      TrimSnoc(DropStamp(u), '\r');
    }
  }

  lemma StripOfStripCr(s: string)
    ensures Strip(StripCr(s)) == Strip(s)
  {
    hide Strip;
    if StripCr(s) != s {
      assert s == StripCr(s) + "\r";
      StripCarriageReturn(StripCr(s));
    }
  }

  // ----- and nothing else is -----

  /** A text that begins with a level. */
  predicate LevelAt(x: string, n: string, r: string) {
    x == "<" + n + ">" + r && n != "" && forall i :: 0 <= i < |n| ==> '0' <= n[i] <= '9'
  }

  /** A text that begins with a timestamp, in brackets or before a blank. */
  predicate StampAt(x: string, stamp: string, ts: string, r: string) {
    && x == stamp + r
    && (|| (stamp == "[" + ts + "]" && forall i :: 0 <= i < |Trim(ts)| ==> '0' <= Trim(ts)[i] <= '9' || Trim(ts)[i] == '.')
        || (stamp == ts + " " && '.' in ts && forall i :: 0 <= i < |ts| ==> '0' <= ts[i] <= '9' || ts[i] == '.'))
  }

  lemma LevelIs(x: string)
    ensures match SplitLevel(x)
            case Some((n, r)) => LevelAt(x, n, r)
            case None => forall n, r :: !LevelAt(x, n, r)
  {
    hide SplitOnce;
    if StartsWith(x, "<") {
      SplitOnceParts(x[1..], '>');
      assert x == "<" + x[1..];
    }
    forall n, r ensures LevelAt(x, n, r) ==> SplitLevel(x) == Some((n, r)) {
      if LevelAt(x, n, r) {
        assert x[1..] == n + ['>'] + r;
        SplitOnceAt(n, '>', r);
      }
    }
  }

  lemma NoClosing(ts: string)
    requires DigitsOrDots(Trim(ts))
    ensures ']' !in ts
  {
    hide Trim;
    assert !IsSpace(']');
    if ']' in ts {
      SolidInTrim(ts, ']');
    }
  }

  lemma BracketedIs(x: string, ts: string, r: string)
    requires x == "[" + ts + "]" + r && DigitsOrDots(Trim(ts))
    ensures SplitStamp(x) == Some((ts, r))
  {
    hide SplitOnce, Trim;
    NoClosing(ts);
    assert x[1..] == ts + [']'] + r;
    SplitOnceAt(ts, ']', r);
  }

  lemma BareIs(x: string, ts: string, r: string)
    requires x == ts + " " + r && '.' in ts && DigitsOrDots(ts)
    ensures SplitStamp(x) == Some((ts, r))
  {
    hide SplitOnce;
    assert ' ' !in ts;
    SplitOnceAt(ts, ' ', r);
    assert x[0] == ts[0];
  }

  lemma StampIs(x: string) returns (stamp: string)
    ensures match SplitStamp(x)
            case Some((ts, r)) => StampAt(x, stamp, ts, r)
            case None => stamp == "" && forall st, ts, r :: !StampAt(x, st, ts, r)
  {
    hide SplitOnce, Trim;
    stamp := "";
    if StartsWith(x, "[") {
      SplitOnceParts(x[1..], ']');
      assert x == "[" + x[1..];
      if SplitStamp(x).Some? {
        stamp := "[" + SplitStamp(x).value.0 + "]";
      }
    } else {
      SplitOnceParts(x, ' ');
      if SplitStamp(x).Some? {
        stamp := SplitStamp(x).value.0 + " ";
      }
    }
    forall st, ts, r ensures StampAt(x, st, ts, r) ==> SplitStamp(x) == Some((ts, r)) {
      StampOnly(x, st, ts, r);
    }
  }

  lemma StampOnly(x: string, st: string, ts: string, r: string)
    ensures StampAt(x, st, ts, r) ==> SplitStamp(x) == Some((ts, r))
  {
    hide SplitOnce, Trim, SplitStamp;
    if StampAt(x, st, ts, r) {
      if st == "[" + ts + "]" && DigitsOrDots(Trim(ts)) {
        BracketedIs(x, ts, r);
      } else {
        BareIs(x, ts, r);
      }
    }
  }

  /** A level and the blanks behind it, if there is one. */
  lemma LevelFront(t: string) returns (level: string, gap: string)
    ensures t == level + gap + DropLevel(t) && AllSpace(gap)
    ensures if level != "" then exists n, r :: level == "<" + n + ">" && LevelAt(t, n, r)
      else gap == "" && forall n, r :: !LevelAt(t, n, r)
  {
    hide TrimStart, SplitLevel, IsSpace, LevelAt;
    LevelIs(t);
    level, gap := "", "";
    match SplitLevel(t)
    case Some((n, r)) =>
      level := "<" + n + ">";
      LevelParts(t, n, r);
      TrimStartParts(r);
      var u := TrimStart(r);
      gap := r[..|r| - |u|];
      assert r == gap + u;
      Assoc(level, gap, u);
    case None =>
  }

  lemma StampFront(u: string) returns (stamp: string)
    ensures u == stamp + DropStamp(u)
    ensures if stamp != "" then exists ts :: StampAt(u, stamp, ts, DropStamp(u)) else forall st, ts, r :: !StampAt(u, st, ts, r)
  {
    hide SplitStamp, StampAt;
    stamp := StampIs(u);
    match SplitStamp(u)
    case Some((ts, r)) => StampParts(u, stamp, ts, r);
    case None =>
  }

  /** What is taken off the front of any line: blanks, a level with the blanks behind it if there is one, and a
      timestamp if there is one. */
  lemma StripIs(raw: string) returns (lead: string, level: string, gap: string, stamp: string, rest: string)
    ensures raw == lead + (level + gap + (stamp + rest)) && Strip(raw) == Trim(rest)
    ensures AllSpace(lead) && AllSpace(gap)
    ensures var t := level + gap + (stamp + rest);
      if level != "" then exists n, r :: level == "<" + n + ">" && LevelAt(t, n, r)
      else gap == "" && forall n, r :: !LevelAt(t, n, r)
    ensures if stamp != "" then exists ts :: StampAt(stamp + rest, stamp, ts, rest)
      else forall st, ts, r :: !StampAt(stamp + rest, st, ts, r)
  {
    hide TrimStart, Trim, DropLevel, DropStamp, IsSpace, LevelAt, StampAt;
    var t := TrimStart(raw);
    TrimStartParts(raw);
    lead := raw[..|raw| - |t|];
    level, gap := LevelFront(t);
    stamp := StampFront(DropLevel(t));
    rest := DropStamp(DropLevel(t));
    assert raw == lead + t;
  }

  lemma LevelParts(x: string, n: string, r: string)
    requires LevelAt(x, n, r)
    ensures x == "<" + n + ">" + r
  {
  }

  lemma StampParts(x: string, stamp: string, ts: string, r: string)
    requires StampAt(x, stamp, ts, r)
    ensures x == stamp + r && stamp != ""
  {
    hide Trim;
  }
}
