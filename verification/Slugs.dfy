/** Publishing reports: `set_visibility` and the lookup of a public report by its slug. */
module Slugs {
  import opened Wrappers

  /** The two columns of a report row. */
  datatype Row = Row(public: bool, slug: Option<string>)

  type Rows = map<string, Row>

  /** The statement that a call has decided on. */
  datatype Update = Publish(id: string, slug: string) | Unpublish(id: string)

  /** `calls` are those between their SELECT and their UPDATE. `applied` is the sequence of updates so
      far; the program does not keep it. */
  datatype State = State(rows: Rows, calls: map<nat, Update>, applied: seq<Update>)

  const INIT := State(map[], map[], [])

  /** Any number of calls, interleaved at their statements; `Insert` is a new report. */
  datatype Action =
    | Insert(id: string)
    | Select(c: nat, id: string, public: bool, candidate: string, ok: bool)
    | Apply(c: nat, ok: bool)

  /** What a call decides when it has read the row: a slug that is there stays. */
  function Decide(rows: Rows, id: string, public: bool, candidate: string): Update
    requires id in rows
  {
    if public then Publish(id, if rows[id].slug.Some? then rows[id].slug.value else candidate) else Unpublish(id)
  }

  /** The unique index on `publish_slug`. */
  predicate Allowed(rows: Rows, u: Update) {
    u.Publish? ==> forall r :: r in rows && rows[r].slug == Some(u.slug) ==> r == u.id
  }

  function RowOf(u: Update): Row {
    match u
    case Publish(_, slug) => Row(true, Some(slug))
    case Unpublish(_) => Row(false, None)
  }

  /** An UPDATE that matches a row and does not break the index. */
  function Applied(s: State, u: Update): State {
    if u.id in s.rows && Allowed(s.rows, u) then s.(rows := s.rows[u.id := RowOf(u)], applied := s.applied + [u]) else s
  }

  function Step(s: State, a: Action): State {
    match a
    case Insert(id) => if id in s.rows then s else s.(rows := s.rows[id := Row(false, None)])
    case Select(c, id, public, candidate, ok) =>
      if ok && c !in s.calls && id in s.rows then s.(calls := s.calls[c := Decide(s.rows, id, public, candidate)]) else s
    case Apply(c, ok) =>
      if c in s.calls then (if ok then Applied(s, s.calls[c]) else s).(calls := s.calls - {c}) else s
  }

  function Run(s: State, run: seq<Action>): State {
    if run == [] then s else Step(Run(s, run[..|run| - 1]), run[|run| - 1])
  }

  // ----- the code -----

  datatype Reply = NoReport | Public(slug: string) | Private | Failed

  /** The report page behind a slug. */
  predicate Serves(rows: Rows, slug: string, r: string) {
    r in rows && rows[r].slug == Some(slug) && rows[r].public
  }

  class Reports {
    var rows: Rows
    ghost var applied: seq<Update>

    constructor ()
      ensures View() == INIT
    {
      rows, applied := map[], [];
    }

    ghost function View(): State
      reads this
    {
      State(rows, map[], applied)
    }

    /** `set_visibility`. `candidate` is the random slug for a report that has none; the flags say whether
        each statement gets through. */
    method SetVisibility(id: string, public: bool, candidate: string, selected: bool, updated: bool) returns (reply: Reply)
      modifies this
      ensures View() == Run(old(View()), [Select(0, id, public, candidate, selected), Apply(0, updated)])
      ensures reply == Failed || reply == NoReport ==> rows == old(rows)
      ensures reply == NoReport <==> selected && id !in old(rows)
      ensures reply.Public? ==> public && Serves(rows, reply.slug, id)
      ensures reply.Public? && id in old(rows) && old(rows)[id].slug.Some? ==> Some(reply.slug) == old(rows)[id].slug
      ensures reply.Private? ==> !public && id in rows && rows[id] == Row(false, None)
      ensures forall k :: k in old(rows) && k != id ==> k in rows && rows[k] == old(rows)[k]
      // with both statements through, it is refused only where another report has the slug
      ensures selected && updated && id in old(rows) ==>
        var wanted := if old(rows)[id].slug.Some? then old(rows)[id].slug.value else candidate;
        if !public then reply == Private
        else if exists k :: k in old(rows) && k != id && old(rows)[k].slug == Some(wanted) then reply == Failed
        else reply == Public(wanted)
    {
      TwoSteps(View(), Select(0, id, public, candidate, selected), Apply(0, updated));
      assert map[0 := Unpublish(id)] - {0} == map[];
      hide Run;
      if !selected {
        return Failed;
      }
      if id !in rows {
        return NoReport;
      }
      var u := Decide(rows, id, public, candidate);
      assert map[][0 := u] - {0} == map[];
      if !updated || !Allowed(rows, u) {
        return Failed;
      }
      rows := rows[id := RowOf(u)];
      applied := applied + [u];
      return if public then Public(u.slug) else Private;
    }

    /** The lookup of `public_report`. */
    method PublicReport(slug: string) returns (r: Option<string>)
      ensures r.Some? ==> Serves(rows, slug, r.value)
      ensures r.None? ==> forall k :: !Serves(rows, slug, k)
    {
      if k :| k in rows && Serves(rows, slug, k) {
        return Some(k);
      }
      return None;
    }
  }

  lemma TwoSteps(s: State, a: Action, b: Action)
    ensures Run(s, [a, b]) == Step(Step(s, a), b)
  {
    assert [a, b][..1] == [a] && [a][..0] == [];
    assert Run(s, [a]) == Step(Run(s, []), a);
  }

  // ----- every interleaving -----

  /** The last update of a report decides what its row says; without one it is private. */
  ghost predicate IsLast(applied: seq<Update>, i: nat) {
    i < |applied| && forall j :: i < j < |applied| ==> applied[j].id != applied[i].id
  }

  ghost predicate RowsFollow(s: State) {
    && (forall i: nat :: IsLast(s.applied, i) ==> s.applied[i].id in s.rows && s.rows[s.applied[i].id] == RowOf(s.applied[i]))
    && forall r :: r in s.rows && s.rows[r] != Row(false, None) ==> exists i: nat :: IsLast(s.applied, i) && s.applied[i].id == r
  }

  ghost predicate SlugsUnique(rows: Rows) {
    forall a, b :: a in rows && b in rows && rows[a].slug.Some? && rows[a].slug == rows[b].slug ==> a == b
  }

  ghost predicate SlugInv(s: State) {
    && (forall r :: r in s.rows ==> (s.rows[r].public <==> s.rows[r].slug.Some?))
    && (forall i :: 0 <= i < |s.applied| ==> s.applied[i].id in s.rows)
    && SlugsUnique(s.rows) && RowsFollow(s)
  }

  lemma LastNext(applied: seq<Update>, u: Update, i: nat)
    ensures IsLast(applied + [u], i) <==>
      if i == |applied| then true else IsLast(applied, i) && applied[i].id != u.id
  {
    var next := applied + [u];
    assert forall j :: 0 <= j < |applied| ==> next[j] == applied[j];
    assert next[|applied|] == u;
    if i < |applied| && IsLast(next, i) {
      forall j | i < j < |applied| ensures applied[j].id != applied[i].id {
        assert next[j].id != next[i].id;
      }
    }
  }

  lemma AppliedKeeps(s: State, u: Update)
    requires SlugInv(s)
    ensures SlugInv(Applied(s, u))
  {
    if u.id in s.rows && Allowed(s.rows, u) {
      var s' := Applied(s, u);
      assert s'.applied[|s.applied|] == u;
      forall i: nat | IsLast(s'.applied, i)
        ensures s'.applied[i].id in s'.rows && s'.rows[s'.applied[i].id] == RowOf(s'.applied[i])
      {
        LastNext(s.applied, u, i);
      }
      forall r | r in s'.rows && s'.rows[r] != Row(false, None)
        ensures exists i: nat :: IsLast(s'.applied, i) && s'.applied[i].id == r
      {
        LastNext(s.applied, u, |s.applied|);
        if r != u.id {
          var i: nat :| IsLast(s.applied, i) && s.applied[i].id == r;
          LastNext(s.applied, u, i);
        }
      }
    }
  }

  lemma StepKeeps(s: State, a: Action)
    requires SlugInv(s)
    ensures SlugInv(Step(s, a))
  {
    if a.Apply? && a.c in s.calls {
      AppliedKeeps(s, s.calls[a.c]);
    }
  }

  lemma {:induction false} SlugInvariant(run: seq<Action>)
    ensures SlugInv(Run(INIT, run))
  {
    hide Step;
    if run != [] {
      SlugInvariant(run[..|run| - 1]);
      StepKeeps(Run(INIT, run[..|run| - 1]), run[|run| - 1]);
    }
  }

  /** In every interleaving a report is public exactly if it has a slug, and a slug serves a report
      exactly if the last update of that report published it under this slug; so it serves at most one. */
  lemma SlugServes(run: seq<Action>, slug: string, r: string)
    ensures var s := Run(INIT, run);
      && (r in s.rows ==> (s.rows[r].public <==> s.rows[r].slug.Some?))
      && (Serves(s.rows, slug, r) <==> exists i: nat :: IsLast(s.applied, i) && s.applied[i] == Publish(r, slug))
      && forall q :: Serves(s.rows, slug, r) && Serves(s.rows, slug, q) ==> q == r
  {
    SlugInvariant(run);
    var s := Run(INIT, run);
    hide Run;
    if Serves(s.rows, slug, r) {
      var i: nat :| IsLast(s.applied, i) && s.applied[i].id == r;
      assert s.applied[i] == Publish(r, slug);
    }
  }

  /** Publishing a public report again always succeeds, in every interleaving, and changes no row. */
  lemma PublishAgain(run: seq<Action>, c: nat, id: string, candidate: string)
    requires var s := Run(INIT, run); id in s.rows && s.rows[id].public && c !in s.calls
    ensures var s := Run(INIT, run); var s' := Run(s, [Select(c, id, true, candidate, true), Apply(c, true)]);
      && s.rows[id].slug.Some? && s'.rows == s.rows && s'.calls == s.calls
      && s'.applied == s.applied + [Publish(id, s.rows[id].slug.value)]
  {
    SlugInvariant(run);
    var s := Run(INIT, run);
    TwoSteps(s, Select(c, id, true, candidate, true), Apply(c, true));
    hide Run;
    assert s.rows[id] == Row(true, s.rows[id].slug);
    assert s.rows[id := s.rows[id]] == s.rows;
    assert s.calls[c := Publish(id, s.rows[id].slug.value)] - {c} == s.calls;
  }

  // ----- when a slug is stable -----

  /** Between two unpublishings a report has one slug. */
  ghost predicate Stable(applied: seq<Update>) {
    forall i, j :: 0 <= i < j < |applied| && SamePeriod(applied, i, j) ==> applied[i] == applied[j]
  }

  ghost predicate SamePeriod(applied: seq<Update>, i: int, j: int)
    requires 0 <= i < |applied| && 0 <= j < |applied|
  {
    && applied[i].Publish? && applied[j].Publish? && applied[i].id == applied[j].id
    && forall k :: i < k < j ==> applied[k] != Unpublish(applied[i].id)
  }

  lemma StableNext(s: State, u: Update)
    requires SlugInv(s) && Stable(s.applied) && u.id in s.rows
    requires u.Publish? && s.rows[u.id].slug.Some? ==> u.slug == s.rows[u.id].slug.value
    ensures Stable(s.applied + [u])
  {
    var next := s.applied + [u];
    forall i, j | 0 <= i < j < |next| && SamePeriod(next, i, j) ensures next[i] == next[j] {
      if j < |s.applied| {
        assert SamePeriod(s.applied, i, j) by {
          forall k | i < k < j ensures s.applied[k] != Unpublish(s.applied[i].id) { assert next[k] == s.applied[k]; }
        }
      } else {
        var l := LastOf(s.applied, i);
        assert next[i] == s.applied[i] && next[l] == s.applied[l];
        assert i < l ==> SamePeriod(s.applied, i, l) by {
          forall k | i < k < l ensures s.applied[k] != Unpublish(s.applied[i].id) { assert next[k] == s.applied[k]; }
        }
        assert s.rows[u.id] == RowOf(s.applied[l]);
      }
    }
  }

  lemma LastOf(applied: seq<Update>, i: nat) returns (l: nat)
    requires i < |applied|
    ensures i <= l < |applied| && IsLast(applied, l) && applied[l].id == applied[i].id
    decreases |applied| - i
  {
    if IsLast(applied, i) {
      l := i;
    } else {
      var k: nat :| i < k < |applied| && applied[k].id == applied[i].id;
      l := LastOf(applied, k);
    }
  }

  /** An UPDATE that publishes a report under another slug than it has by now. */
  predicate Replaces(rows: Rows, u: Update) {
    u.Publish? && u.id in rows && rows[u.id].slug.Some? && rows[u.id].slug != Some(u.slug)
  }

  /** A call whose decision was overtaken: it gets through although the report got a slug since it looked. */
  predicate Overtaken(s: State, a: Action) {
    a.Apply? && a.ok && a.c in s.calls && Allowed(s.rows, s.calls[a.c]) && Replaces(s.rows, s.calls[a.c])
  }

  lemma StablePrefix(applied: seq<Update>, u: Update)
    requires Stable(applied + [u])
    ensures Stable(applied)
  {
    var next := applied + [u];
    forall i, j | 0 <= i < j < |applied| && SamePeriod(applied, i, j) ensures applied[i] == applied[j] {
      assert next[i] == applied[i] && next[j] == applied[j];
      assert SamePeriod(next, i, j) by {
        forall k | i < k < j ensures next[k] != Unpublish(next[i].id) { assert next[k] == applied[k]; }
      }
    }
  }

  lemma ReplacingIsUnstable(s: State, u: Update)
    requires SlugInv(s) && Replaces(s.rows, u)
    ensures !Stable(s.applied + [u])
  {
    var next := s.applied + [u];
    var i: nat :| IsLast(s.applied, i) && s.applied[i].id == u.id;
    assert next[i] == s.applied[i] && next[|s.applied|] == u;
    assert SamePeriod(next, i, |s.applied|) by {
      forall k | i < k < |s.applied| ensures next[k] != Unpublish(next[i].id) { assert next[k] == s.applied[k]; }
    }
  }

  lemma StepStable(s: State, a: Action)
    requires SlugInv(s)
    ensures Stable(Step(s, a).applied) <==> Stable(s.applied) && !Overtaken(s, a)
  {
    if a.Apply? && a.ok && a.c in s.calls && s.calls[a.c].id in s.rows && Allowed(s.rows, s.calls[a.c]) {
      var u := s.calls[a.c];
      hide SlugInv, Allowed, Stable;
      if Stable(s.applied + [u]) { StablePrefix(s.applied, u); }
      if Replaces(s.rows, u) {
        ReplacingIsUnstable(s, u);
      } else if Stable(s.applied) {
        StableNext(s, u);
      }
    }
  }

  ghost predicate NoneOvertaken(run: seq<Action>) {
    forall i :: 0 <= i < |run| ==> !Overtaken(Run(INIT, run[..i]), run[i])
  }

  lemma NoneOvertakenNext(before: seq<Action>, a: Action)
    ensures NoneOvertaken(before + [a]) <==> NoneOvertaken(before) && !Overtaken(Run(INIT, before), a)
  {
    hide Overtaken, Run;
    var run := before + [a];
    assert run[..|before|] == before && run[|before|] == a;
    assert forall i :: 0 <= i < |before| ==> run[..i] == before[..i] && run[i] == before[i];
  }

  /** In every interleaving publishing again keeps a report's slug, until it is unpublished, exactly if no
      call was overtaken. A conditional UPDATE would test the same: that the slug is still what was read. */
  lemma {:induction false} SlugsStableIff(run: seq<Action>)
    ensures Stable(Run(INIT, run).applied) <==> NoneOvertaken(run)
  {
    hide Step, Stable, Overtaken, SlugInv;
    if run == [] {
      assert Stable([]) by { StableEmpty(); }
    } else {
      var before, a := run[..|run| - 1], run[|run| - 1];
      SlugsStableIff(before);
      SlugInvariant(before);
      StepStable(Run(INIT, before), a);
      assert run == before + [a];
      NoneOvertakenNext(before, a);
    }
  }

  lemma StableEmpty()
    ensures Stable([])
  {
  }

  /** A call that begins while another one for the same report is open. */
  ghost predicate Overlaps(s: State, a: Action) {
    a.Select? && a.ok && a.id in s.rows && exists d :: d in s.calls && d != a.c && s.calls[d].id == a.id
  }

  ghost predicate NoneOverlap(run: seq<Action>) {
    forall i :: 0 <= i < |run| ==> !Overlaps(Run(INIT, run[..i]), run[i])
  }

  /** Open calls are for different reports, and what each decided still fits. */
  ghost predicate CallsFit(s: State) {
    && (forall c :: c in s.calls ==> s.calls[c].id in s.rows && !Replaces(s.rows, s.calls[c]))
    && forall c, d :: c in s.calls && d in s.calls && s.calls[c].id == s.calls[d].id ==> c == d
  }

  lemma StepFits(s: State, a: Action)
    requires CallsFit(s) && !Overlaps(s, a)
    ensures CallsFit(Step(s, a)) && !Overtaken(s, a)
  {
    hide Allowed;
  }

  lemma {:induction false} CallsStayFit(run: seq<Action>)
    requires NoneOverlap(run)
    ensures CallsFit(Run(INIT, run)) && NoneOvertaken(run)
  {
    hide Step, CallsFit, Overlaps, Overtaken;
    if run == [] {
      assert CallsFit(INIT) by { StartFits(); }
    } else {
      var before, a := run[..|run| - 1], run[|run| - 1];
      assert NoneOverlap(before) by {
        forall i | 0 <= i < |before| ensures !Overlaps(Run(INIT, before[..i]), before[i]) {
          assert before[..i] == run[..i] && !Overlaps(Run(INIT, run[..i]), run[i]);
        }
      }
      CallsStayFit(before);
      assert !Overlaps(Run(INIT, run[..|run| - 1]), run[|run| - 1]);
      StepFits(Run(INIT, before), a);
      assert run == before + [a];
      NoneOvertakenNext(before, a);
    }
  }

  lemma StartFits()
    ensures CallsFit(INIT)
  {
  }

  /** So slugs are stable when no two calls for one report overlap, whatever calls for others do. */
  lemma SlugsStable(run: seq<Action>)
    requires NoneOverlap(run)
    ensures Stable(Run(INIT, run).applied)
  {
    hide Stable, NoneOverlap, NoneOvertaken;
    CallsStayFit(run);
    SlugsStableIff(run);
  }

  /** Two overlapping calls for a report without a slug both decide on one: the first caller's link
      then leads nowhere. */
  lemma OverlapLosesSlug(r: string, a: string, b: string)
    requires a != b
    ensures var s := Run(INIT, [Insert(r), Select(0, r, true, a, true), Select(1, r, true, b, true), Apply(0, true), Apply(1, true)]);
      s.applied == [Publish(r, a), Publish(r, b)] && !Serves(s.rows, a, r) && Serves(s.rows, b, r)
  {
    var row := Row(false, None);
    var q1: seq<Action> := [Insert(r)];
    var q2 := q1 + [Select(0, r, true, a, true)];
    var q3 := q2 + [Select(1, r, true, b, true)];
    var q4 := q3 + [Apply(0, true)];
    assert [] + [Insert(r)] == q1;
    assert q4 + [Apply(1, true)] ==
      [Insert(r), Select(0, r, true, a, true), Select(1, r, true, b, true), Apply(0, true), Apply(1, true)];
    RunNext([], Insert(r));
    RunNext(q1, Select(0, r, true, a, true));
    RunNext(q2, Select(1, r, true, b, true));
    RunNext(q3, Apply(0, true));
    RunNext(q4, Apply(1, true));
    assert Run(INIT, []) == INIT;
    hide Run;
    var s1 := Step(INIT, Insert(r));
    assert s1 == State(map[r := row], map[], []);
    var s2 := Step(s1, Select(0, r, true, a, true));
    assert s2 == State(map[r := row], map[0 := Publish(r, a)], []);
    var s3 := Step(s2, Select(1, r, true, b, true));
    assert s3 == State(map[r := row], map[0 := Publish(r, a), 1 := Publish(r, b)], []);
    var s4 := Step(s3, Apply(0, true));
    assert s4 == State(map[r := Row(true, Some(a))], map[1 := Publish(r, b)], [Publish(r, a)]);
    var s5 := Step(s4, Apply(1, true));
    assert s5 == State(map[r := Row(true, Some(b))], map[], [Publish(r, a), Publish(r, b)]);
  }

  lemma RunNext(run: seq<Action>, a: Action)
    ensures Run(INIT, run + [a]) == Step(Run(INIT, run), a)
  {
    assert (run + [a])[..|run|] == run;
  }
}
