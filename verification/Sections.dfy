/** Which crash section of a log `parse_oops` reports. */
module Sections {
  import opened Wrappers
  import opened Text
  import Printk
  import opened Signature
  import opened Oops

  // ----- reading the log without the exception slot -----

  /** Whether a trace is open before line `n`; this depends on the lines alone. */
  function InTrace(rs: seq<Reading>, n: nat): bool
    requires n <= |rs|
  {
    if n == 0 then false
    else rs[n - 1].header || (InTrace(rs, n - 1) && rs[n - 1].frame.Some?)
  }

  /** The frame that line `i` carries, as a sequence of at most one. */
  function FrameAt(rs: seq<Reading>, i: nat): seq<Frame>
    requires i < |rs|
  {
    if !rs[i].header && InTrace(rs, i) && rs[i].frame.Some? then [rs[i].frame.value] else []
  }

  /** All frames on the lines from `lo` up to `hi`. */
  function FramesIn(rs: seq<Reading>, lo: nat, hi: nat): seq<Frame>
    requires hi <= |rs|
  {
    if hi <= lo then [] else FramesIn(rs, lo, hi - 1) + FrameAt(rs, hi - 1)
  }

  lemma {:induction false} FramesSplit(rs: seq<Reading>, lo: nat, mid: nat, hi: nat)
    requires lo <= mid <= hi <= |rs|
    ensures FramesIn(rs, lo, hi) == FramesIn(rs, lo, mid) + FramesIn(rs, mid, hi)
  {
    hide FrameAt;
    if mid < hi {
      FramesSplit(rs, lo, mid, hi - 1);
      Assoc(FramesIn(rs, lo, mid), FramesIn(rs, mid, hi - 1), FrameAt(rs, hi - 1));
    }
  }

  // ----- the reported section -----

  /** Of the first `n` lines, `m` is the last marker line, and `e` the earliest marker line with no
      frame between it and `m`. */
  ghost predicate IsSection(rs: seq<Reading>, n: nat, e: nat, m: nat)
    requires n <= |rs|
  {
    && e <= m < n && rs[e].marker && rs[m].marker
    && (forall j :: m < j < n ==> !rs[j].marker)
    && FramesIn(rs, e, m) == []
    && (forall j :: 0 <= j < e && rs[j].marker ==> FramesIn(rs, j, e) != [])
  }

  ghost predicate Tracks(rs: seq<Reading>, n: nat, e: nat, m: nat)
    requires n <= |rs|
  {
    var st := RunTo(rs, n);
    if st.exception.None? then
      (forall j :: 0 <= j < n ==> !rs[j].marker) && st.frames == FramesIn(rs, 0, n)
    else
      && IsSection(rs, n, e, m)
      && st.exception == Some(rs[e].text)
      && st.frames == FramesIn(rs, m, n)
  }

  /** A marker line either opens a new section or belongs to the current one. */
  lemma MarkStep(rs: seq<Reading>, n: nat, e: nat, m: nat) returns (e': nat, m': nat)
    requires n < |rs| && Tracks(rs, n, e, m) && rs[n].marker
    ensures IsSection(rs, n + 1, e', m')
    ensures var st := Mark(RunTo(rs, n), rs[n]);
      && st.exception == Some(rs[e'].text) && st.frames == [] && m' == n
  {
    hide RunTo, FrameAt;
    var st := RunTo(rs, n);
    m' := n;
    if st.exception.None? {
      e' := n;
    } else if st.frames != [] {
      e' := n;
      forall j | 0 <= j < n && rs[j].marker ensures FramesIn(rs, j, n) != [] {
        FramesSplit(rs, j, m, n);
      }
    } else {
      e' := e;
      FramesSplit(rs, e, m, n);
    }
  }

  lemma TraceStep(rs: seq<Reading>, n: nat, st: Parse)
    requires n < |rs| && st.inTrace == InTrace(rs, n)
    ensures Trace(st, rs[n]) == Parse(st.exception, st.frames + FrameAt(rs, n), InTrace(rs, n + 1))
  {
  }

  lemma {:induction false} RunTracks(rs: seq<Reading>, n: nat) returns (e: nat, m: nat)
    requires n <= |rs|
    ensures Tracks(rs, n, e, m) && RunTo(rs, n).inTrace == InTrace(rs, n)
  {
    hide FrameAt, InTrace, Trace;
    if n == 0 {
      e, m := 0, 0;
      assert InTrace(rs, 0) == false by { NoTrace(rs); }
    } else {
      e, m := RunTracks(rs, n - 1);
      TraceStep(rs, n - 1, Mark(RunTo(rs, n - 1), rs[n - 1]));
      if rs[n - 1].marker {
        e, m := MarkStep(rs, n - 1, e, m);
        assert FramesIn(rs, m, n - 1) == [];
      }
    }
  }

  lemma NoTrace(rs: seq<Reading>)
    ensures !InTrace(rs, 0)
  {
  }

  /** The result is the last crash section: its frames are exactly those on or after the last marker
      line, and its exception line is the earliest marker with no frame in between. There is a
      result exactly when the text has a marker line. */
  lemma ReportsLastSection(rs: seq<Reading>) returns (e: nat, m: nat)
    ensures match Result(rs)
            case Some((exception, frames)) =>
              IsSection(rs, |rs|, e, m) && exception == rs[e].text && frames == FramesIn(rs, m, |rs|)
            case None => forall j :: 0 <= j < |rs| ==> !rs[j].marker
  {
    hide RunTo, FramesIn;
    e, m := RunTracks(rs, |rs|);
  }

  lemma SectionUnique(rs: seq<Reading>, n: nat, e: nat, m: nat, e': nat, m': nat)
    requires n <= |rs| && IsSection(rs, n, e, m) && IsSection(rs, n, e', m')
    ensures e == e' && m == m'
  {
    hide FramesIn;
    if e < e' {
      FramesSplit(rs, e, e', m);
    } else if e' < e {
      FramesSplit(rs, e', e, m);
    }
  }

  // ----- the last section wins, or not -----

  /** A line of the later text that only the open trace of the earlier one turns into a frame. */
  predicate Extra(a: seq<Reading>, b: seq<Reading>, i: nat)
    requires i < |b|
  {
    FrameAt(a + b, |a| + i) != [] && FrameAt(b, i) == []
  }

  /** The earlier text reads the same with the later one behind it. */
  lemma {:induction false} Earlier(a: seq<Reading>, b: seq<Reading>, lo: nat, hi: nat)
    requires hi <= |a|
    ensures FramesIn(a + b, lo, hi) == FramesIn(a, lo, hi) && InTrace(a + b, hi) == InTrace(a, hi)
  {
    if hi > 0 {
      Earlier(a, b, lo, hi - 1);
    }
  }

  /** In the later text a trace that is open without the earlier one is open with it. */
  lemma {:induction false} Later(a: seq<Reading>, b: seq<Reading>, n: nat)
    requires n <= |b|
    ensures InTrace(b, n) ==> InTrace(a + b, |a| + n)
  {
    if n > 0 {
      Later(a, b, n - 1);
      assert (a + b)[|a| + n - 1] == b[n - 1];
    }
  }

  /** Extra frames come first: behind a line without one there is none. */
  lemma {:induction false} ExtraFirst(a: seq<Reading>, b: seq<Reading>, i: nat, j: nat)
    requires i <= j < |b| && Extra(a, b, j)
    ensures Extra(a, b, i)
    decreases j - i
  {
    assert (a + b)[|a| + j] == b[j];
    if i < j {
      assert (a + b)[|a| + j - 1] == b[j - 1];
      ExtraFirst(a, b, i, j - 1);
    }
  }

  lemma LaterAt(a: seq<Reading>, b: seq<Reading>, i: nat)
    requires i < |b|
    ensures Extra(a, b, i) ==> FrameAt(b, i) == [] && FrameAt(a + b, |a| + i) != []
    ensures !Extra(a, b, i) ==> FrameAt(a + b, |a| + i) == FrameAt(b, i)
  {
    assert (a + b)[|a| + i] == b[i];
    Later(a, b, i);
  }

  /** From a line that is not extra on both have the same frames; before, the longer text has more. */
  lemma {:induction false} LaterFrames(a: seq<Reading>, b: seq<Reading>, lo: nat, hi: nat)
    requires lo <= hi <= |b|
    ensures |FramesIn(b, lo, hi)| <= |FramesIn(a + b, |a| + lo, |a| + hi)|
    ensures lo < hi && Extra(a, b, lo) ==> |FramesIn(b, lo, hi)| < |FramesIn(a + b, |a| + lo, |a| + hi)|
    ensures (lo < hi ==> !Extra(a, b, lo)) ==> FramesIn(a + b, |a| + lo, |a| + hi) == FramesIn(b, lo, hi)
  {
    hide FrameAt, Extra;
    if lo < hi {
      LaterAt(a, b, hi - 1);
      LaterFrames(a, b, lo, hi - 1);
      if Extra(a, b, hi - 1) {
        ExtraFirst(a, b, lo, hi - 1);
      }
    }
  }

  /** The first marker line from `e` on that is no extra frame. */
  function FirstPlain(a: seq<Reading>, b: seq<Reading>, e: nat, m: nat): (p: nat)
    requires e <= m < |b| && b[m].marker && !Extra(a, b, m)
    ensures e <= p <= m && b[p].marker && !Extra(a, b, p)
    ensures forall i :: e <= i < p && b[i].marker ==> Extra(a, b, i)
    decreases m - e
  {
    if b[e].marker && !Extra(a, b, e) then e else FirstPlain(a, b, e + 1, m)
  }

  /** The earlier text ends with an exception line that has no frames yet, and none comes before `m`. */
  predicate Carries(a: seq<Reading>, b: seq<Reading>, m: nat)
    requires m < |b|
  {
    RunTo(a, |a|).exception.Some? && RunTo(a, |a|).frames == [] && FramesIn(a + b, |a|, |a| + m) == []
  }

  lemma CarriedSection(a: seq<Reading>, b: seq<Reading>, e: nat, m: nat) returns (e': nat)
    requires IsSection(b, |b|, e, m) && Carries(a, b, m)
    ensures IsSection(a + b, |a + b|, e', |a| + m)
    ensures e' < |a| && RunTo(a, |a|).exception == Some((a + b)[e'].text)
  {
    hide RunTo, FramesIn, InTrace;
    var c := a + b;
    var k: nat;
    e', k := RunTracks(a, |a|);
    Earlier(a, b, e', |a|);
    FramesSplit(a, e', k, |a|);
    FramesSplit(c, e', |a|, |a| + m);
    forall j | 0 <= j < e' && c[j].marker ensures FramesIn(c, j, e') != [] {
      Earlier(a, b, j, e');
    }
    forall j | |a| + m < j < |c| ensures !c[j].marker { assert c[j] == b[j - |a|]; }
    assert c[|a| + m] == b[m];
  }

  lemma PlainSection(a: seq<Reading>, b: seq<Reading>, e: nat, m: nat, p: nat)
    requires IsSection(b, |b|, e, m) && !Extra(a, b, m) && !Carries(a, b, m) && p == FirstPlain(a, b, e, m)
    ensures IsSection(a + b, |a + b|, |a| + p, |a| + m)
  {
    hide RunTo, FramesIn, InTrace, Extra;
    var c := a + b;
    FramesSplit(b, e, p, m);
    LaterFrames(a, b, p, m);
    forall j | 0 <= j < |a| + p && c[j].marker ensures FramesIn(c, j, |a| + p) != [] {
      if j < |a| {
        MarkerBefore(a, b, m, p, j);
      } else {
        var i := j - |a|;
        assert c[j] == b[i];
        LaterFrames(a, b, i, p);
        if i < e {
          FramesSplit(b, i, e, p);
        }
      }
    }
    forall j | |a| + m < j < |c| ensures !c[j].marker { assert c[j] == b[j - |a|]; }
    assert c[|a| + m] == b[m] && c[|a| + p] == b[p];
  }

  /** Between a marker line of the earlier text and the section there are frames. */
  lemma MarkerBefore(a: seq<Reading>, b: seq<Reading>, m: nat, p: nat, j: nat)
    requires p <= m < |b| && !Carries(a, b, m) && FramesIn(a + b, |a| + p, |a| + m) == []
    requires j < |a| && a[j].marker
    ensures FramesIn(a + b, j, |a| + p) != []
  {
    hide RunTo, FramesIn, InTrace;
    var c := a + b;
    var e, k := RunTracks(a, |a|);
    Earlier(a, b, j, |a|);
    FramesSplit(c, j, |a|, |a| + p);
    FramesSplit(c, |a|, |a| + p, |a| + m);
    FramesSplit(a, j, k, |a|);
  }

  /** For all earlier and later texts, the later one having a marker line and its own section at `e` and
      `m`: appended, it gives its own result exactly if its last marker line is no extra frame and the
      exception line reads the same, which is the carried one or the first one that is no extra frame. */
  lemma LastSectionIff(a: seq<Reading>, b: seq<Reading>, e: nat, m: nat)
    requires IsSection(b, |b|, e, m)
    ensures Result(a + b) == Result(b) <==>
      !Extra(a, b, m) && (if Carries(a, b, m) then RunTo(a, |a|).exception == Some(b[e].text)
                          else b[FirstPlain(a, b, e, m)].text == b[e].text)
  {
    hide Result, FramesIn, InTrace, Extra, Carries, RunTo, IsSection;
    var c := a + b;
    var e1, m1 := ReportsLastSection(b);
    SectionHasMarker(b, e, m);
    SectionUnique(b, |b|, e, m, e1, m1);
    var e2, m2 := ReportsLastSection(c);
    LaterFrames(a, b, m, |b|);
    assert c[|a| + m] == b[m];
    if Extra(a, b, m) {
      LastMarker(a, b, e, m, e2, m2);
    } else if Carries(a, b, m) {
      var e3 := CarriedSection(a, b, e, m);
      SectionUnique(c, |c|, e2, m2, e3, |a| + m);
    } else {
      var p := FirstPlain(a, b, e, m);
      PlainSection(a, b, e, m, p);
      SectionUnique(c, |c|, e2, m2, |a| + p, |a| + m);
      assert c[|a| + p] == b[p];
    }
  }

  lemma SectionHasMarker(rs: seq<Reading>, e: nat, m: nat)
    requires IsSection(rs, |rs|, e, m)
    ensures e <= m < |rs| && rs[e].marker && rs[m].marker
  {
  }

  lemma LastMarker(a: seq<Reading>, b: seq<Reading>, e: nat, m: nat, e': nat, m': nat)
    requires IsSection(b, |b|, e, m) && IsSection(a + b, |a + b|, e', m')
    ensures m' == |a| + m
  {
    hide FramesIn;
    var c := a + b;
    assert c[|a| + m] == b[m];
    assert m' >= |a| ==> c[m'] == b[m' - |a|];
  }

  /** In particular a later text wins whose first marker line is no extra frame, when the earlier one left
      frames behind. */
  lemma LastSectionWins(a: seq<Reading>, b: seq<Reading>, k: nat)
    requires RunTo(a, |a|).frames != []
    requires k < |b| && b[k].marker && !Extra(a, b, k) && forall i :: 0 <= i < k ==> !b[i].marker
    ensures Result(a + b) == Result(b)
  {
    hide Result, FramesIn, InTrace, RunTo, Extra;
    var e, m := ReportsLastSection(b);
    LastSectionIff(a, b, e, m);
    if Extra(a, b, m) { ExtraFirst(a, b, k, m); }
    if Extra(a, b, e) { ExtraFirst(a, b, k, e); }
  }

  lemma {:induction false} RunPrefix(a: seq<Reading>, b: seq<Reading>, n: nat)
    requires n <= |a|
    ensures RunTo(a + b, n) == RunTo(a, n)
  {
    hide Step;
    if n > 0 {
      RunPrefix(a, b, n - 1);
    }
  }

  /** Where it does not: a marker line behind an open trace that carries a frame, and one behind an exception
      line without frames. */
  lemma EarlierTextShows(a: seq<Reading>, r: Reading)
    requires r.marker && !r.header
    ensures Result([r]) == Some((r.text, []))
    ensures var st := RunTo(a, |a|);
      && (st.inTrace && r.frame.Some? ==> Result(a + [r]).Some? && Result(a + [r]).value.1 == [r.frame.value])
      && (st.exception.Some? && st.frames == [] ==> Result(a + [r]).Some? && Result(a + [r]).value.0 == st.exception.value)
  {
    RunPrefix(a, [r], |a|);
    assert RunTo(a + [r], |a| + 1) == Step(RunTo(a, |a|), r);
    assert RunTo([r], 0) == INIT && RunTo([r], 1) == Step(INIT, r);
  }

  /** Texts are read one after the other, so these laws are about texts when `a` ends with a newline. */
  lemma ReadingsConcat(a: string, b: string)
    requires a == "" || a[|a| - 1] == '\n'
    ensures Readings(a + b) == Readings(a) + Readings(b)
  {
    hide Lines, ReadLine;
    LinesOfConcat(a, b);
  }

  // ----- log prefixes are invisible -----

  /** A log whose lines carry the given prefixes and messages. */
  function Logged(ps: seq<Printk.Prefix>, msgs: seq<string>): seq<string>
    requires |ps| == |msgs|
  {
    seq(|msgs|, i requires 0 <= i < |msgs| => Printk.Render(ps[i]) + msgs[i])
  }

  ghost predicate ValidLog(ps: seq<Printk.Prefix>, msgs: seq<string>) {
    && |ps| == |msgs|
    && (forall i :: 0 <= i < |ps| ==> Printk.Valid(ps[i]))
    && forall i :: 0 <= i < |ps| ==> OneLine(Printk.Render(ps[i]) + msgs[i])
  }

  lemma LoggedReadings(ps: seq<Printk.Prefix>, msgs: seq<string>)
    requires ValidLog(ps, msgs)
    ensures var rs := Readings(Unlines(Logged(ps, msgs)));
      |rs| == |msgs| && forall i :: 0 <= i < |msgs| ==> rs[i] == ReadText(Trim(msgs[i]))
  {
    hide Lines, Unlines, Printk.Strip, Printk.Valid, Printk.Render, StripCr, Trim, ReadText;
    var log := Logged(ps, msgs);
    LinesOfUnlines(log);
    forall i | 0 <= i < |msgs| ensures Printk.Strip(Lines(Unlines(log))[i]) == Trim(msgs[i]) {
      Printk.StripOfStripCr(log[i]);
      Printk.PrefixStripped(ps[i], msgs[i]);
    }
  }

  /** The same messages under any two choices of log prefixes, line by line, parse alike. */
  lemma PrefixIndependent(ps: seq<Printk.Prefix>, qs: seq<Printk.Prefix>, msgs: seq<string>)
    requires ValidLog(ps, msgs) && ValidLog(qs, msgs)
    ensures Parsed(Unlines(Logged(ps, msgs))) == Parsed(Unlines(Logged(qs, msgs)))
  {
    hide Readings, Unlines, ReadText, Trim, Logged, Result;
    LoggedReadings(ps, msgs);
    LoggedReadings(qs, msgs);
    assert Readings(Unlines(Logged(ps, msgs))) == Readings(Unlines(Logged(qs, msgs)));
  }
}
