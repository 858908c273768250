/** The grouping key of a crash: `compute`. */
module Signature {
  import opened Wrappers
  import opened Text
  import Symbols
  import Exceptions

  /** One call-trace frame. */
  datatype Frame = Frame(symbol: string, modName: Option<string>, questionable: bool)

  /** `input` is the text whose SHA-256 the original stores. */
  datatype CrashSignature = CrashSignature(input: string, title: string, modules: seq<string>)

  const SIGNATURE_FRAMES: nat := 5

  const SKIP_PREFIXES: seq<string> := [
    "dump_backtrace", "show_stack", "dump_stack", "die", "__die", "oops", "panic", "__warn",
    "warn_slowpath", "report_bug", "bug_handler", "do_trap", "do_page_fault",
    "do_translation_fault", "do_mem_abort", "el1_", "el1h_", "__do_kernel_fault", "ret_from_",
    "handle_exception"]

  predicate IsMachinery(symbol: string) {
    || (exists k :: 0 <= k < |SKIP_PREFIXES| && StartsWith(symbol, SKIP_PREFIXES[k]))
    || EndsWith(symbol, "_exception")
  }

  // ----- what the key is made of -----

  predicate Usable(f: Frame) { !f.questionable && Symbols.Normal(f.symbol) != "" }

  /** The normalised name of a usable frame, as a sequence of at most one. */
  function NameOf(f: Frame): (ns: seq<string>)
    ensures |ns| <= 1 && (ns != [] ==> ns[0] != "")
  {
    if Usable(f) then [Symbols.Normal(f.symbol)] else []
  }

  function ModuleOf(f: Frame): seq<string> {
    if Usable(f) && f.modName.Some? then [f.modName.value] else []
  }

  /** Normalised names of the usable frames. */
  function Names(frames: seq<Frame>): (ns: seq<string>)
    ensures forall i :: 0 <= i < |ns| ==> ns[i] != ""
  {
    if frames == [] then [] else NameOf(frames[0]) + Names(frames[1..])
  }

  function DropMachinery(names: seq<string>): seq<string> {
    if names != [] && IsMachinery(names[0]) then DropMachinery(names[1..]) else names
  }

  function Top(names: seq<string>): seq<string> {
    if |names| <= SIGNATURE_FRAMES then names else names[..SIGNATURE_FRAMES]
  }

  function KeyFrames(frames: seq<Frame>): seq<string> { Top(DropMachinery(Names(frames))) }

  /** Modules of the usable frames, machinery included. */
  function Modules(frames: seq<Frame>): seq<string> {
    if frames == [] then [] else ModuleOf(frames[0]) + Modules(frames[1..])
  }

  /** First occurrences, in order. */
  function Distinct(ms: seq<string>): (r: seq<string>)
    ensures forall m :: m in r <==> m in ms
    ensures forall i, j :: 0 <= i < j < |r| ==> r[i] != r[j]
  {
    if ms == [] then []
    else
      var init, m := ms[..|ms| - 1], ms[|ms| - 1];
      assert ms == init + [m];
      if m in init then Distinct(init) else Distinct(init) + [m]
  }

  function KeyText(kind: string, exception: string, names: seq<string>): string {
    kind + "|" + exception + "|" + Join(names, "|")
  }

  function Input(kind: string, exception: string, frames: seq<Frame>): string {
    KeyText(kind, exception, KeyFrames(frames))
  }

  function Title(exception: string, frames: seq<Frame>): string {
    var names := KeyFrames(frames);
    if names != [] then names[0] else exception
  }

  /** The signature for an exception line that is normalised already. */
  function Built(kind: string, exception: string, frames: seq<Frame>): CrashSignature {
    CrashSignature(Input(kind, exception, frames), Title(exception, frames), Distinct(Modules(frames)))
  }

  function Of(kind: string, exceptionLine: string, frames: seq<Frame>): CrashSignature {
    Built(kind, Exceptions.Normal(exceptionLine), frames)
  }

  // ----- the single pass computes it -----

  lemma {:induction false} NamesConcat(a: seq<Frame>, b: seq<Frame>)
    ensures Names(a + b) == Names(a) + Names(b) && Modules(a + b) == Modules(a) + Modules(b)
  {
    hide NameOf, ModuleOf;
    if a == [] {
      assert a + b == b;
    } else {
      assert (a + b)[0] == a[0] && (a + b)[1..] == a[1..] + b;
      NamesConcat(a[1..], b);
      Assoc(NameOf(a[0]), Names(a[1..]), Names(b));
      Assoc(ModuleOf(a[0]), Modules(a[1..]), Modules(b));
    }
  }

  lemma NamesOfOne(f: Frame)
    ensures Names([f]) == NameOf(f) && Modules([f]) == ModuleOf(f)
  {
  }

  lemma NamesSnoc(frames: seq<Frame>, i: nat)
    requires i < |frames|
    ensures Names(frames[..i + 1]) == Names(frames[..i]) + NameOf(frames[i])
    ensures Modules(frames[..i + 1]) == Modules(frames[..i]) + ModuleOf(frames[i])
  {
    hide Names, Modules, NameOf, ModuleOf;
    assert frames[..i + 1] == frames[..i] + [frames[i]];
    NamesConcat(frames[..i], [frames[i]]);
    NamesOfOne(frames[i]);
  }

  lemma {:induction false} DropSnoc(names: seq<string>, n: string)
    ensures DropMachinery(names + [n]) ==
            if DropMachinery(names) == [] && IsMachinery(n) then [] else DropMachinery(names) + [n]
  {
    hide IsMachinery;
    if names != [] {
      assert (names + [n])[1..] == names[1..] + [n];
      DropSnoc(names[1..], n);
    } else {
      assert names + [n] == [n];
    }
  }

  lemma DistinctSnoc(ms: seq<string>, m: string)
    ensures Distinct(ms + [m]) == if m in ms then Distinct(ms) else Distinct(ms) + [m]
  {
    assert (ms + [m])[..|ms|] == ms;
  }

  /** How one more name changes the selected frames. */
  lemma TopSnoc(names: seq<string>, n: string)
    ensures var d := DropMachinery(names); var d' := DropMachinery(names + [n]);
      if d == [] && IsMachinery(n) then d' == []
      else d' != [] && Top(d') == if |Top(d)| < SIGNATURE_FRAMES then Top(d) + [n] else Top(d)
  {
    hide IsMachinery, DropMachinery;
    DropSnoc(names, n);
    var d := DropMachinery(names);
    if |d| >= SIGNATURE_FRAMES {
      assert (d + [n])[..SIGNATURE_FRAMES] == d[..SIGNATURE_FRAMES];
      assert |d| == SIGNATURE_FRAMES ==> d[..SIGNATURE_FRAMES] == d;
    }
  }

  /** `compute`. */
  method Compute(kind: string, exceptionLine: string, frames: seq<Frame>) returns (sig: CrashSignature)
    ensures sig == Of(kind, exceptionLine, frames)
  {
    hide Names, Modules, DropMachinery, Top, Distinct, IsMachinery, Exceptions.Normal, Symbols.Normal, Join;
    var exception := Exceptions.NormalizeException(exceptionLine);
    var sigFrames: seq<string> := [];
    var modules: seq<string> := [];
    var seenRealFrame := false;
    Empties(frames);
    for i := 0 to |frames|
      invariant sigFrames == KeyFrames(frames[..i])
      invariant modules == Distinct(Modules(frames[..i]))
      invariant seenRealFrame <==> DropMachinery(Names(frames[..i])) != []
    {
      NamesSnoc(frames, i);
      ghost var names, mods := Names(frames[..i]), Modules(frames[..i]);
      assert names + [] == names && mods + [] == mods;
      var f := frames[i];
      if f.questionable {
        continue;
      }
      var sym := Symbols.NormalizeSymbol(f.symbol);
      if sym == "" {
        continue;
      }
      if f.modName.Some? {
        var m := f.modName.value;
        DistinctSnoc(mods, m);
        if m !in modules {
          modules := modules + [m];
        }
      }
      TopSnoc(names, sym);
      if !seenRealFrame && IsMachinery(sym) {
        continue;
      }
      seenRealFrame := true;
      if |sigFrames| < SIGNATURE_FRAMES {
        sigFrames := sigFrames + [sym];
      }
    }
    assert frames[..|frames|] == frames;
    var title := if sigFrames != [] then sigFrames[0] else exception;
    sig := CrashSignature(kind + "|" + exception + "|" + Join(sigFrames, "|"), title, modules);
  }

  lemma Empties(frames: seq<Frame>)
    ensures Names(frames[..0]) == [] && Modules(frames[..0]) == []
    ensures DropMachinery([]) == [] && Top([]) == [] && Distinct([]) == []
  {
  }

  // ----- what the key does not depend on -----

  /** Frames that agree in name and standing. */
  ghost predicate SameNames(f: seq<Frame>, g: seq<Frame>) {
    && |f| == |g|
    && forall i :: 0 <= i < |f| ==>
         f[i].questionable == g[i].questionable && Symbols.Normal(f[i].symbol) == Symbols.Normal(g[i].symbol)
  }

  lemma {:induction false} SameNamesSameKey(f: seq<Frame>, g: seq<Frame>)
    requires SameNames(f, g)
    ensures Names(f) == Names(g)
  {
    if f != [] {
      SameNamesSameKey(f[1..], g[1..]);
    }
  }

  /** Other offsets and sizes, or other modules, give the same key and title. */
  lemma OffsetsIgnored(kind: string, e: string, f: seq<Frame>, g: seq<Frame>)
    requires |f| == |g|
    requires forall i :: 0 <= i < |f| ==> f[i].questionable == g[i].questionable
    requires forall i :: 0 <= i < |f| ==> exists a, b, c ::
               f[i].symbol == a + OFFSET + b && g[i].symbol == a + OFFSET + c
    ensures Input(kind, e, f) == Input(kind, e, g) && Title(e, f) == Title(e, g)
  {
    hide Symbols.Normal, Names;
    forall i | 0 <= i < |f| ensures Symbols.Normal(f[i].symbol) == Symbols.Normal(g[i].symbol) {
      var a, b, c :| f[i].symbol == a + OFFSET + b && g[i].symbol == a + OFFSET + c;
      Symbols.OffsetIgnored(a, b, c);
    }
    SameNamesSameKey(f, g);
  }

  /** Questionable frames may stand anywhere: nothing of the signature sees them. */
  lemma QuestionableIgnored(kind: string, e: string, a: seq<Frame>, q: Frame, b: seq<Frame>)
    requires q.questionable
    ensures Built(kind, e, a + [q] + b) == Built(kind, e, a + b)
  {
    hide Names, Modules;
    NamesConcat(a + [q], b);
    NamesConcat(a, [q]);
    NamesConcat(a, b);
    NamesOfOne(q);
    assert Names(a) + [] == Names(a) && Modules(a) + [] == Modules(a);
  }

  lemma {:induction false} DropLeading(ms: seq<string>, names: seq<string>)
    requires forall i :: 0 <= i < |ms| ==> IsMachinery(ms[i])
    ensures DropMachinery(ms + names) == DropMachinery(names)
  {
    hide IsMachinery;
    if ms == [] {
      assert ms + names == names;
    } else {
      assert (ms + names)[1..] == ms[1..] + names;
      DropLeading(ms[1..], names);
    }
  }

  /** Machinery at the front of the trace, of any length, changes neither key nor title. */
  lemma MachineryIgnored(kind: string, e: string, lead: seq<Frame>, frames: seq<Frame>)
    requires forall i :: 0 <= i < |Names(lead)| ==> IsMachinery(Names(lead)[i])
    ensures Input(kind, e, lead + frames) == Input(kind, e, frames)
    ensures Title(e, lead + frames) == Title(e, frames)
  {
    hide Names, DropMachinery, IsMachinery, Top, Join;
    NamesConcat(lead, frames);
    DropLeading(Names(lead), Names(frames));
  }

  lemma {:induction false} DropKeeps(names: seq<string>, more: seq<string>)
    requires DropMachinery(names) != []
    ensures DropMachinery(names + more) == DropMachinery(names) + more
  {
    hide IsMachinery;
    if IsMachinery(names[0]) {
      assert (names + more)[1..] == names[1..] + more;
      DropKeeps(names[1..], more);
    }
  }

  lemma TopKeeps(d: seq<string>, more: seq<string>)
    requires |Top(d)| == SIGNATURE_FRAMES
    ensures Top(d + more) == Top(d)
  {
    assert (d + more)[..SIGNATURE_FRAMES] == d[..SIGNATURE_FRAMES];
    assert |d| == SIGNATURE_FRAMES ==> d[..SIGNATURE_FRAMES] == d;
    assert |d + more| == SIGNATURE_FRAMES ==> (d + more)[..SIGNATURE_FRAMES] == d + more;
  }

  /** Only five frames count: once they are there, what follows in the trace is irrelevant. */
  lemma BeyondFifthIgnored(kind: string, e: string, frames: seq<Frame>, more: seq<Frame>)
    requires |KeyFrames(frames)| == SIGNATURE_FRAMES
    ensures Input(kind, e, frames + more) == Input(kind, e, frames)
    ensures Title(e, frames + more) == Title(e, frames)
  {
    hide Names, DropMachinery, Join;
    NamesConcat(frames, more);
    var d := DropMachinery(Names(frames));
    assert d != [];
    hide Top;
    DropKeeps(Names(frames), Names(more));
    TopKeeps(d, Names(more));
  }

  // ----- the key determines its parts -----

  predicate NoBar(s: string) { '|' !in s }

  lemma KindRecovered(k: string, e: string, ns: seq<string>, k': string, e': string, ns': seq<string>)
    requires NoBar(k) && NoBar(k')
    requires KeyText(k, e, ns) == KeyText(k', e', ns')
    ensures k == k' && e + "|" + Join(ns, "|") == e' + "|" + Join(ns', "|")
  {
    hide Join, SplitOnce;
    var r, r' := e + "|" + Join(ns, "|"), e' + "|" + Join(ns', "|");
    assert KeyText(k, e, ns) == k + "|" + r && KeyText(k', e', ns') == k' + "|" + r';
    SplitOnceAt(k, '|', r);
    SplitOnceAt(k', '|', r');
  }

  lemma {:induction false} JoinInjective(ns: seq<string>, ms: seq<string>)
    requires forall i :: 0 <= i < |ns| ==> ns[i] != "" && NoBar(ns[i])
    requires forall i :: 0 <= i < |ms| ==> ms[i] != "" && NoBar(ms[i])
    requires Join(ns, "|") == Join(ms, "|")
    ensures ns == ms
  {
    hide SplitOnce;
    JoinSplit(ns);
    JoinSplit(ms);
    if |ns| > 1 && |ms| > 1 {
      JoinInjective(ns[1..], ms[1..]);
      assert ns == [ns[0]] + ns[1..] && ms == [ms[0]] + ms[1..];
    }
  }

  lemma JoinSplit(ns: seq<string>)
    requires forall i :: 0 <= i < |ns| ==> ns[i] != "" && NoBar(ns[i])
    ensures Join(ns, "|") == "" <==> ns == []
    ensures |ns| > 1 ==> SplitOnce(Join(ns, "|"), "|") == Some((ns[0], Join(ns[1..], "|")))
    ensures |ns| == 1 ==> SplitOnce(Join(ns, "|"), "|") == None
  {
    hide SplitOnce;
    if |ns| > 1 {
      SplitOnceAt(ns[0], '|', Join(ns[1..], "|"));
    } else if |ns| == 1 {
      SplitOnceParts(ns[0], '|');
    }
  }

  /** Without a '|' inside the parts, equal keys mean equal kind, exception and frames; in
      particular a trace without frames is never confused with one that has some. */
  lemma KeyInjective(k: string, e: string, ns: seq<string>, k': string, e': string, ns': seq<string>)
    requires NoBar(k) && NoBar(k') && NoBar(e) && NoBar(e')
    requires forall i :: 0 <= i < |ns| ==> ns[i] != "" && NoBar(ns[i])
    requires forall i :: 0 <= i < |ns'| ==> ns'[i] != "" && NoBar(ns'[i])
    ensures KeyText(k, e, ns) == KeyText(k', e', ns') <==> (k, e, ns) == (k', e', ns')
  {
    hide Join, SplitOnce;
    if KeyText(k, e, ns) == KeyText(k', e', ns') {
      KindRecovered(k, e, ns, k', e', ns');
      SplitOnceAt(e, '|', Join(ns, "|"));
      SplitOnceAt(e', '|', Join(ns', "|"));
      JoinInjective(ns, ns');
    }
  }

  /** An exception line with a '|' imitates a frame: whatever kind, line and frames, the part behind the bar
      might as well be one more frame in front of the others. */
  lemma BarConfuses(kind: string, e: string, x: string, frames: seq<Frame>, frames': seq<Frame>)
    requires KeyFrames(frames) != [] && KeyFrames(frames') == [x] + KeyFrames(frames)
    ensures Input(kind, e + "|" + x, frames) == Input(kind, e, frames')
  {
    hide KeyFrames;
    var ns := KeyFrames(frames);
    assert ([x] + ns)[1..] == ns;
    var j := Join(ns, "|");
    assert Join([x] + ns, "|") == x + "|" + j;
    hide Join;
    assert kind + "|" + (e + "|" + x) + "|" + j == kind + "|" + e + "|" + (x + "|" + j);
  }
}
