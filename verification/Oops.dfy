/** Reading a kernel oops: `parse_oops`. */
module Oops {
  import opened Wrappers
  import opened Text
  import Printk
  import opened Signature

  const MARKERS: seq<string> := [
    "Oops", "kernel BUG at", "Internal error:", "Unable to handle kernel", "Unhandled fault",
    "BUG:", "WARNING:"]

  const END_TRACE := "---[ end trace"

  predicate IsMarker(line: string) { exists k :: 0 <= k < |MARKERS| && Contains(line, MARKERS[k]) }

  predicate IsHeader(line: string) { StartsWith(line, "Call trace:") || StartsWith(line, "Call Trace:") }

  predicate EndsTrace(line: string) { Contains(line, END_TRACE) || line == "" }

  /** `trim_start_matches("? ")`. */
  function DropQuestion(line: string): string {
    if StartsWith(line, "? ") then DropQuestion(line[2..]) else line
  }

  /** The short "(P)" and "(K)" marks are taken off the end of a frame, one after the other. */
  function Peel(line: string): (r: string)
    ensures |r| <= |line|
    decreases |line|
  {
    if EndsWith(line, ")") then
      match RSplitOnce(line, " (")
      case Some((rest, mark)) => if ByteLen(mark) <= 3 then Peel(TrimEnd(rest)) else line
      case None => line
    else line
  }

  lemma {:induction false} PeelPrefix(line: string)
    ensures Peel(line) <= line
    decreases |line|
  {
    hide ByteLen, TrimEnd, RFind;
    var split := RSplitOnce(line, " (");
    if EndsWith(line, ")") && split.Some? && ByteLen(split.value.1) <= 3 {
      var rest := split.value.0;
      TrimEndParts(rest);
      PeelPrefix(TrimEnd(rest));
      assert line == rest + (" (" + split.value.1);
    }
  }

  /** `trim_end_matches(']')`. */
  function DropClosing(s: string): string {
    if EndsWith(s, "]") then DropClosing(s[..|s| - 1]) else s
  }

  function Body(line: string): string { Peel(Trim(DropQuestion(line))) }

  function SymbolPart(body: string): string {
    match SplitOnce(body, " [")
    case Some((sym, _)) => sym
    case None => body
  }

  function ModulePart(body: string): Option<string> {
    match SplitOnce(body, " [")
    case Some((_, m)) => Some(DropClosing(m))
    case None => None
  }

  /** The frame on a line of a trace; a line without one ends the trace. */
  function TraceLine(line: string): Option<Frame> {
    if EndsTrace(line) then None
    else
      var body := Body(line);
      if Contains(SymbolPart(body), OFFSET)
      then Some(Frame(SymbolPart(body), ModulePart(body), StartsWith(line, "? ")))
      else None
  }

  // ----- the line loop -----

  /** Everything that the loop asks about a line, once its prefix is stripped. */
  datatype Reading = Reading(text: string, marker: bool, header: bool, frame: Option<Frame>)

  function ReadText(line: string): Reading { Reading(line, IsMarker(line), IsHeader(line), TraceLine(line)) }

  function ReadLine(raw: string): Reading { ReadText(Printk.Strip(raw)) }

  function ReadLines(ls: seq<string>): (rs: seq<Reading>)
    ensures |rs| == |ls| && forall i :: 0 <= i < |ls| ==> rs[i] == ReadLine(ls[i])
  {
    seq(|ls|, i requires 0 <= i < |ls| => ReadLine(ls[i]))
  }

  function Readings(text: string): seq<Reading> { ReadLines(Lines(text)) }

  /** What the line loop carries along. */
  datatype Parse = Parse(exception: Option<string>, frames: seq<Frame>, inTrace: bool)

  const INIT := Parse(None, [], false)

  function Mark(st: Parse, r: Reading): Parse {
    if !r.marker then st
    else if st.frames != [] then st.(frames := [], exception := Some(r.text))
    else if st.exception.None? then st.(exception := Some(r.text))
    else st
  }

  function Trace(st: Parse, r: Reading): Parse {
    if r.header then st.(inTrace := true)
    else if st.inTrace then
      match r.frame
      case Some(f) => st.(frames := st.frames + [f])
      case None => st.(inTrace := false)
    else st
  }

  function Step(st: Parse, r: Reading): Parse { Trace(Mark(st, r), r) }

  /** The state after the first `n` lines. */
  function RunTo(rs: seq<Reading>, n: nat): Parse
    requires n <= |rs|
  {
    if n == 0 then INIT else Step(RunTo(rs, n - 1), rs[n - 1])
  }

  function Result(rs: seq<Reading>): Option<(string, seq<Frame>)> {
    var st := RunTo(rs, |rs|);
    match st.exception
    case Some(e) => Some((e, st.frames))
    case None => None
  }

  function Parsed(text: string): Option<(string, seq<Frame>)> { Result(Readings(text)) }

  /** `parse_oops`. */
  method ParseOops(text: string) returns (r: Option<(string, seq<Frame>)>)
    ensures r == Parsed(text)
  {
    hide IsMarker, IsHeader, TraceLine, Lines, Printk.Strip;
    var exception: Option<string> := None;
    var frames: seq<Frame> := [];
    var inTrace := false;
    var ls := Lines(text);
    for i := 0 to |ls|
      invariant Parse(exception, frames, inTrace) == RunTo(ReadLines(ls), i)
    {
      var line := Printk.Strip(ls[i]);
      var marked := FindMarker(line);
      if marked {
        if frames != [] {
          frames := [];
          exception := Some(line);
        } else if exception.None? {
          exception := Some(line);
        }
      }
      if IsHeader(line) {
        inTrace := true;
        continue;
      }
      if inTrace {
        var frame := ReadFrame(line);
        if frame.None? {
          inTrace := false;
          continue;
        }
        frames := frames + [frame.value];
      }
    }
    r := if exception.Some? then Some((exception.value, frames)) else None;
  }

  /** The marker loop. */
  method FindMarker(line: string) returns (found: bool)
    ensures found <==> IsMarker(line)
  {
    hide Contains;
    found := false;
    for k := 0 to |MARKERS|
      invariant !found
      invariant forall j :: 0 <= j < k ==> !Contains(line, MARKERS[j])
    {
      var marker := MARKERS[k];
      PrefixContained(line, marker);
      if StartsWith(line, marker) || Contains(line, marker) {
        found := true;
        break;
      }
    }
  }

  lemma PrefixContained(line: string, p: string)
    ensures StartsWith(line, p) ==> Contains(line, p)
  {
    if StartsWith(line, p) {
      assert OccursAt(line, p, 0);
    }
  }

  /** The part of the loop that reads a line inside a trace. */
  method ReadFrame(raw: string) returns (r: Option<Frame>)
    ensures r == TraceLine(raw)
  {
    hide Contains, Find;
    if Contains(raw, END_TRACE) || raw == "" {
      return None;
    }
    var questionable := StartsWith(raw, "? ");
    var line := Trim(DropQuestion(raw));
    while EndsWith(line, ")")
      invariant Peel(line) == Body(raw)
      decreases |line|
    {
      var parts := RSplitOnce(line, " (");
      if parts.Some? && ByteLen(parts.value.1) <= 3 {
        line := TrimEnd(parts.value.0);
      } else {
        break;
      }
    }
    var symPart, modName := line, None;
    var split := SplitOnce(line, " [");
    if split.Some? {
      symPart, modName := split.value.0, Some(DropClosing(split.value.1));
    }
    if !Contains(symPart, OFFSET) {
      return None;
    }
    r := Some(Frame(symPart, modName, questionable));
  }
}
