/** Which frames make up key and title, told frame by frame. */
module Selection {
  import opened Wrappers
  import opened Text
  import Symbols
  import Exceptions
  import opened Signature

  /** A frame that is not questionable and has a name left. */
  predicate Counts(f: Frame) { !f.questionable && Symbols.Normal(f.symbol) != "" }

  /** Names of the error-handling code itself. */
  predicate Handles(n: string) {
    || StartsWith(n, "dump_backtrace") || StartsWith(n, "show_stack") || StartsWith(n, "dump_stack")
    || StartsWith(n, "die") || StartsWith(n, "__die") || StartsWith(n, "oops") || StartsWith(n, "panic")
    || StartsWith(n, "__warn") || StartsWith(n, "warn_slowpath") || StartsWith(n, "report_bug")
    || StartsWith(n, "bug_handler") || StartsWith(n, "do_trap") || StartsWith(n, "do_page_fault")
    || StartsWith(n, "do_translation_fault") || StartsWith(n, "do_mem_abort") || StartsWith(n, "el1_")
    || StartsWith(n, "el1h_") || StartsWith(n, "__do_kernel_fault") || StartsWith(n, "ret_from_")
    || StartsWith(n, "handle_exception") || EndsWith(n, "_exception")
  }

  lemma HandlesIsMachinery(n: string)
    ensures Handles(n) <==> IsMachinery(n)
  {
    hide StartsWith, EndsWith;
    assert |SKIP_PREFIXES| == 20;
    assert SKIP_PREFIXES[0] == "dump_backtrace" && SKIP_PREFIXES[1] == "show_stack" && SKIP_PREFIXES[2] == "dump_stack" && SKIP_PREFIXES[3] == "die";
    assert SKIP_PREFIXES[4] == "__die" && SKIP_PREFIXES[5] == "oops" && SKIP_PREFIXES[6] == "panic" && SKIP_PREFIXES[7] == "__warn";
    assert SKIP_PREFIXES[8] == "warn_slowpath" && SKIP_PREFIXES[9] == "report_bug" && SKIP_PREFIXES[10] == "bug_handler" && SKIP_PREFIXES[11] == "do_trap";
    assert SKIP_PREFIXES[12] == "do_page_fault" && SKIP_PREFIXES[13] == "do_translation_fault" && SKIP_PREFIXES[14] == "do_mem_abort" && SKIP_PREFIXES[15] == "el1_";
    assert SKIP_PREFIXES[16] == "el1h_" && SKIP_PREFIXES[17] == "__do_kernel_fault" && SKIP_PREFIXES[18] == "ret_from_" && SKIP_PREFIXES[19] == "handle_exception";
  }

  // ----- the frames that count -----

  /** All positions of frames that count, in order. */
  ghost predicate Lists(frames: seq<Frame>, idx: seq<nat>) {
    && (forall a, b :: 0 <= a < b < |idx| ==> idx[a] < idx[b])
    && (forall a :: 0 <= a < |idx| ==> idx[a] < |frames| && Counts(frames[idx[a]]))
    && forall i: nat :: i < |frames| && Counts(frames[i]) ==> i in idx
  }

  lemma ListsNext(init: seq<Frame>, f: Frame, idx: seq<nat>)
    requires Lists(init, idx)
    ensures Lists(init + [f], if Counts(f) then idx + [|init|] else idx)
  {
    hide Counts;
    var frames, idx' := init + [f], if Counts(f) then idx + [|init|] else idx;
    forall i: nat | i < |frames| && Counts(frames[i]) ensures i in idx' {
      if i < |init| {
        assert frames[i] == init[i] && i in idx;
      }
    }
  }

  lemma NameOfIs(f: Frame)
    ensures NameOf(f) == if Counts(f) then [Symbols.Normal(f.symbol)] else []
  {
    hide Symbols.Normal;
  }

  lemma {:induction false} Counting(frames: seq<Frame>) returns (idx: seq<nat>)
    ensures Lists(frames, idx) && |Names(frames)| == |idx|
    ensures forall a :: 0 <= a < |idx| ==> idx[a] < |frames| && Names(frames)[a] == Symbols.Normal(frames[idx[a]].symbol)
  {
    hide Symbols.Normal, Counts, Names, NameOf, Lists;
    if frames == [] {
      idx := [];
      NoModules();
      assert Lists(frames, idx) by { NoneListed(); }
    } else {
      var n := |frames| - 1;
      var before := Counting(frames[..n]);
      NamesSnoc(frames, n);
      assert frames[..n + 1] == frames == frames[..n] + [frames[n]];
      ListsNext(frames[..n], frames[n], before);
      NameOfIs(frames[n]);
      idx := if Counts(frames[n]) then before + [n] else before;
      InLists(frames[..n], before);
      forall a | 0 <= a < |idx| ensures Names(frames)[a] == Symbols.Normal(frames[idx[a]].symbol) {
        if a < |before| {
          assert frames[..n][before[a]] == frames[before[a]];
        }
      }
    }
  }

  lemma NoneListed()
    ensures Lists([], [])
  {
  }

  lemma InLists(frames: seq<Frame>, idx: seq<nat>)
    requires Lists(frames, idx)
    ensures forall a :: 0 <= a < |idx| ==> idx[a] < |frames|
  {
  }

  /** Where the machinery in front ends. */
  lemma {:induction false} Dropped(names: seq<string>) returns (d: nat)
    ensures d <= |names| && DropMachinery(names) == names[d..]
    ensures (forall a :: 0 <= a < d ==> Handles(names[a])) && (d < |names| ==> !Handles(names[d]))
  {
    hide IsMachinery, Handles;
    d := 0;
    if names != [] {
      HandlesIsMachinery(names[0]);
      if IsMachinery(names[0]) {
        d := Dropped(names[1..]);
        d := d + 1;
      }
    }
  }

  /** The frames whose names are in the key: from the first that is no machinery on, those that count, five
      at most. */
  ghost predicate Chosen(frames: seq<Frame>, idx: seq<nat>) {
    && |idx| <= 5
    && (forall a, b :: 0 <= a < b < |idx| ==> idx[a] < idx[b])
    && (forall a :: 0 <= a < |idx| ==> idx[a] < |frames| && Counts(frames[idx[a]]))
    && (forall i: nat :: i < |frames| && Counts(frames[i]) && (idx == [] || i < idx[0]) ==> Handles(Symbols.Normal(frames[i].symbol)))
    && (idx != [] ==> !Handles(Symbols.Normal(frames[idx[0]].symbol)))
    && (forall i: nat :: idx != [] && idx[0] <= i < |frames| && Counts(frames[i]) && (|idx| < 5 || i <= idx[|idx| - 1]) ==> i in idx)
  }

  lemma Slice(idx: seq<nat>, d: nat, e: nat, i: nat)
    requires d <= e <= |idx| && (forall a, b :: 0 <= a < b < |idx| ==> idx[a] < idx[b])
    requires i in idx && d < e && idx[d] <= i && (e == |idx| || i <= idx[e - 1])
    ensures i in idx[d..e]
  {
    var a :| 0 <= a < |idx| && idx[a] == i;
    assert d <= a < e;
    assert idx[d..e][a - d] == i;
  }

  lemma NoGap(frames: seq<Frame>, all: seq<nat>, d: nat, end: nat, i: nat)
    requires Lists(frames, all) && d < end <= |all| && (end == |all| || end == d + 5)
    requires all[d] <= i < |frames| && Counts(frames[i]) && (end < d + 5 || i <= all[end - 1])
    ensures i in all[d..end]
  {
    hide Counts;
    Slice(all, d, end, i);
  }

  lemma BeforeChosen(frames: seq<Frame>, all: seq<nat>, d: nat, i: nat)
    requires Lists(frames, all) && d <= |all|
    requires forall a :: 0 <= a < d ==> Handles(Symbols.Normal(frames[all[a]].symbol))
    requires i < |frames| && Counts(frames[i]) && (d == |all| || i < all[d])
    ensures Handles(Symbols.Normal(frames[i].symbol))
  {
    hide Counts, Handles, Symbols.Normal;
    var a :| 0 <= a < |all| && all[a] == i;
    assert a < d;
  }

  /** Of all frames that count, those from the `d`-th on, the first that is no machinery. */
  lemma ChosenOf(frames: seq<Frame>, all: seq<nat>, d: nat, end: nat)
    requires Lists(frames, all) && d <= |all| && end == if |all| - d <= 5 then |all| else d + 5
    requires forall a :: 0 <= a < d ==> Handles(Symbols.Normal(frames[all[a]].symbol))
    requires d < |all| ==> !Handles(Symbols.Normal(frames[all[d]].symbol))
    ensures Chosen(frames, all[d..end])
  {
    hide Symbols.Normal, Handles, Counts, Lists;
    var idx := all[d..end];
    Ordered(frames, all);
    forall i: nat | idx != [] && idx[0] <= i < |frames| && Counts(frames[i]) && (|idx| < 5 || i <= idx[|idx| - 1])
      ensures i in idx
    {
      NoGap(frames, all, d, end, i);
    }
    forall i: nat | i < |frames| && Counts(frames[i]) && (idx == [] || i < idx[0])
      ensures Handles(Symbols.Normal(frames[i].symbol))
    {
      BeforeChosen(frames, all, d, i);
    }
  }

  lemma Ordered(frames: seq<Frame>, all: seq<nat>)
    requires Lists(frames, all)
    ensures forall a, b :: 0 <= a < b < |all| ==> all[a] < all[b]
    ensures forall a :: 0 <= a < |all| ==> all[a] < |frames| && Counts(frames[all[a]])
  {
    hide Counts;
  }

  lemma KeyFramesChosen(frames: seq<Frame>) returns (idx: seq<nat>)
    ensures Chosen(frames, idx) && |KeyFrames(frames)| == |idx|
    ensures forall a :: 0 <= a < |idx| ==> idx[a] < |frames| && KeyFrames(frames)[a] == Symbols.Normal(frames[idx[a]].symbol)
  {
    hide Names, DropMachinery, Top, Symbols.Normal, Handles, Counts, Chosen;
    var all := Counting(frames);
    var d := Dropped(Names(frames));
    var end := if |all| - d <= 5 then |all| else d + 5;
    ChosenOf(frames, all, d, end);
    TopOf(Names(frames), d);
    idx := all[d..end];
  }

  function NamesAt(frames: seq<Frame>, idx: seq<nat>): seq<string> {
    seq(|idx|, a requires 0 <= a < |idx| => if idx[a] < |frames| then Symbols.Normal(frames[idx[a]].symbol) else "")
  }

  /** Key and title are made of these frames: the key joins kind, exception and their names, and the title is
      the first name, or the exception if there is none. The modules are those of all frames that count. */
  lemma KeyOfFrames(kind: string, e: string, frames: seq<Frame>) returns (idx: seq<nat>)
    ensures Chosen(frames, idx)
    ensures Of(kind, e, frames).input == kind + "|" + Exceptions.Normal(e) + "|" + Join(NamesAt(frames, idx), "|")
    ensures Of(kind, e, frames).title == if idx != [] then NamesAt(frames, idx)[0] else Exceptions.Normal(e)
    ensures ModulesAre(frames, Of(kind, e, frames).modules)
  {
    hide KeyFrames, Symbols.Normal, Exceptions.Normal, Join, Chosen, Modules, Distinct, ModulesAre;
    ModulesOfFrames(frames);
    idx := KeyFramesChosen(frames);
    assert KeyFrames(frames) == NamesAt(frames, idx);
  }

  lemma TopOf(names: seq<string>, d: nat)
    requires d <= |names| && DropMachinery(names) == names[d..]
    ensures Top(DropMachinery(names)) == names[d..if |names| - d <= 5 then |names| else d + 5]
  {
    hide DropMachinery;
  }

  // ----- the modules -----

  /** The first frame that counts with this module. */
  ghost predicate FirstWith(frames: seq<Frame>, i: nat, m: string) {
    && i < |frames| && Counts(frames[i]) && frames[i].modName == Some(m)
    && forall j :: 0 <= j < i && Counts(frames[j]) ==> frames[j].modName != Some(m)
  }

  ghost predicate ModulesAre(frames: seq<Frame>, ms: seq<string>) {
    && (forall a, b :: 0 <= a < b < |ms| ==> ms[a] != ms[b])
    && (forall m :: m in ms <==> exists i: nat :: FirstWith(frames, i, m))
    && forall a, b, i: nat, j: nat :: 0 <= a < b < |ms| && FirstWith(frames, i, ms[a]) && FirstWith(frames, j, ms[b]) ==> i < j
  }

  lemma SameModules(init: seq<Frame>, f: Frame, ms: seq<string>)
    requires ModulesAre(init, ms) && (Counts(f) && f.modName.Some? ==> f.modName.value in ms)
    ensures ModulesAre(init + [f], ms)
  {
    hide FirstWith;
    forall m, i: nat ensures FirstWith(init + [f], i, m) <==> FirstWith(init, i, m) {
      FirstNext(init, f, i, m);
    }
  }

  lemma NewModule(init: seq<Frame>, f: Frame, ms: seq<string>, x: string)
    requires ModulesAre(init, ms) && Counts(f) && f.modName == Some(x) && x !in ms
    ensures ModulesAre(init + [f], ms + [x])
  {
    hide FirstWith, Counts;
    var frames, ms' := init + [f], ms + [x];
    forall m, i: nat ensures FirstWith(frames, i, m) <==> FirstWith(init, i, m) || (i == |init| && m == x) {
      FirstNext(init, f, i, m);
    }
    forall m ensures m in ms' <==> exists i: nat :: FirstWith(frames, i, m) {
      if m in ms {
        var i: nat :| FirstWith(init, i, m);
        assert FirstWith(frames, i, m);
      }
      assert FirstWith(frames, |init|, x);
    }
    forall a, b, i: nat, j: nat | 0 <= a < b < |ms'| && FirstWith(frames, i, ms'[a]) && FirstWith(frames, j, ms'[b])
      ensures i < j
    {
      assert ms'[a] == ms[a] && ms'[a] != x;
      assert FirstWith(init, i, ms[a]);
      InRange(init, i, ms[a]);
    }
  }

  lemma InRange(frames: seq<Frame>, i: nat, m: string)
    requires FirstWith(frames, i, m)
    ensures i < |frames|
  {
  }

  /** The modules are those of the frames that count, each once, in the order in which they appear. */
  lemma {:induction false} ModulesOfFrames(frames: seq<Frame>)
    ensures ModulesAre(frames, Distinct(Modules(frames)))
  {
    hide Counts, Modules, Distinct, ModulesAre, ModuleOf;
    if frames == [] {
      NoModules();
      assert ModulesAre([], []) by { NoneWith(); }
    } else {
      var n := |frames| - 1;
      var init, f := frames[..n], frames[n];
      ModulesOfFrames(init);
      NamesSnoc(frames, n);
      assert frames[..n + 1] == frames == init + [f];
      var ms := Distinct(Modules(init));
      ModuleOfIs(f);
      if Counts(f) && f.modName.Some? {
        DistinctSnoc(Modules(init), f.modName.value);
        if f.modName.value in ms {
          SameModules(init, f, ms);
        } else {
          NewModule(init, f, ms, f.modName.value);
        }
      } else {
        RightUnit(Modules(init));
        SameModules(init, f, ms);
      }
    }
  }

  lemma NoneWith()
    ensures ModulesAre([], [])
  {
  }

  lemma NoModules()
    ensures Distinct(Modules([])) == [] && Names([]) == []
  {
  }

  lemma ModuleOfIs(f: Frame)
    ensures ModuleOf(f) == if Counts(f) && f.modName.Some? then [f.modName.value] else []
  {
    hide Symbols.Normal;
  }

  lemma FirstNext(init: seq<Frame>, f: Frame, i: nat, m: string)
    ensures FirstWith(init + [f], i, m) <==>
      FirstWith(init, i, m)
      || (i == |init| && Counts(f) && f.modName == Some(m) && forall j: nat :: !FirstWith(init, j, m))
  {
    hide Counts;
    var frames := init + [f];
    assert forall j :: 0 <= j < |init| ==> frames[j] == init[j];
    if i == |init| && exists j :: 0 <= j < |init| && Counts(init[j]) && init[j].modName == Some(m) {
      var j := Earliest(init, m);
    }
  }

  lemma {:induction false} Earliest(frames: seq<Frame>, m: string) returns (i: nat)
    requires exists j :: 0 <= j < |frames| && Counts(frames[j]) && frames[j].modName == Some(m)
    ensures FirstWith(frames, i, m)
  {
    hide Counts;
    var n := |frames| - 1;
    if exists j :: 0 <= j < n && Counts(frames[j]) && frames[j].modName == Some(m) {
      var j :| 0 <= j < n && Counts(frames[j]) && frames[j].modName == Some(m);
      assert frames[..n][j] == frames[j];
      i := Earliest(frames[..n], m);
    } else {
      i := n;
    }
  }
}
