/** The crash-group table, kept up to date by one upsert per decoded report. */
module Groups {
  import opened Text
  import Signature

  /** One upsert: the values that the decoder binds. */
  datatype Entry = Entry(signature: string, kind: string, title: string, modules: seq<string>,
                         seenAt: int, version: string, newId: nat)

  datatype Group = Group(id: nat, kind: string, title: string, modules: string,
                         firstSeen: int, lastSeen: int, firstVersion: string)

  /** Rows by their unique signature. */
  type Table = map<string, Group>

  function NewGroup(e: Entry): Group {
    Group(e.newId, e.kind, e.title, Join(e.modules, " "), e.seenAt, e.seenAt, e.version)
  }

  function Upsert(t: Table, e: Entry): Table {
    if e.signature in t then t[e.signature := t[e.signature].(lastSeen := e.seenAt)]
    else t[e.signature := NewGroup(e)]
  }

  /** A new row needs an unused primary key. */
  predicate CanUpsert(t: Table, e: Entry) {
    e.signature in t || forall s :: s in t ==> t[s].id != e.newId
  }

  /** The table after a history of upserts. */
  function Replay(h: seq<Entry>): Table {
    if h == [] then map[] else Upsert(Replay(h[..|h| - 1]), h[|h| - 1])
  }

  // ----- the history grouped by signature -----

  predicate IsFirst(h: seq<Entry>, i: nat)
    requires i < |h|
  {
    forall j :: 0 <= j < i ==> h[j].signature != h[i].signature
  }

  predicate IsLast(h: seq<Entry>, i: nat)
    requires i < |h|
  {
    forall j :: i < j < |h| ==> h[j].signature != h[i].signature
  }

  /** Field by field: the group of a signature has the time of its last entry, and all else from its first. */
  predicate IsGroupOf(g: Group, first: Entry, last: Entry) {
    && g.id == first.newId && g.kind == first.kind && g.title == first.title && g.firstVersion == first.version
    && g.modules == Join(first.modules, " ") && g.firstSeen == first.seenAt && g.lastSeen == last.seenAt
  }

  /** Exactly one group per signature in the history, fixed by its first entry except for the time
      of the last one. */
  ghost predicate IsGroupBy(h: seq<Entry>, t: Table) {
    && (forall s :: s in t <==> exists i :: 0 <= i < |h| && h[i].signature == s)
    && forall i, j :: Spans(h, i, j) ==>
         h[i].signature in t && IsGroupOf(t[h[i].signature], h[i], h[j])
  }

  /** The first and the last entry of one signature. */
  ghost predicate Spans(h: seq<Entry>, i: int, j: int) {
    && 0 <= i < |h| && 0 <= j < |h| && h[i].signature == h[j].signature
    && IsFirst(h, i) && IsLast(h, j)
  }

  lemma FirstEntry(h: seq<Entry>, s: string) returns (i: nat)
    requires exists k :: 0 <= k < |h| && h[k].signature == s
    ensures i < |h| && h[i].signature == s && IsFirst(h, i)
  {
    if h[0].signature == s {
      i := 0;
    } else {
      var t := h[1..];
      var k :| 0 <= k < |h| && h[k].signature == s;
      assert t[k - 1].signature == s;
      var m := FirstEntry(t, s);
      i := m + 1;
      forall j | 0 <= j < i ensures h[j].signature != h[i].signature {
        assert j > 0 ==> h[j] == t[j - 1];
      }
    }
  }

  lemma {:induction false} ReplayIsGroupBy(h: seq<Entry>)
    ensures IsGroupBy(h, Replay(h))
  {
    if h != [] {
      var g, e := h[..|h| - 1], h[|h| - 1];
      ReplayIsGroupBy(g);
      GroupByStep(g, e, Replay(g));
      assert h == g + [e];
    }
  }

  lemma GroupByStep(g: seq<Entry>, e: Entry, t: Table)
    requires IsGroupBy(g, t)
    ensures IsGroupBy(g + [e], Upsert(t, e))
  {
    var h, t' := g + [e], Upsert(t, e);
    forall s ensures s in t' <==> exists i :: 0 <= i < |h| && h[i].signature == s {
      if s in t {
        var i :| 0 <= i < |g| && g[i].signature == s;
        assert h[i].signature == s;
      }
      if s == e.signature {
        assert h[|g|].signature == s;
      }
      if exists i :: 0 <= i < |h| && h[i].signature == s {
        var i :| 0 <= i < |h| && h[i].signature == s;
        assert i < |g| ==> g[i].signature == s;
      }
    }
    forall i, j | Spans(h, i, j)
      ensures h[i].signature in t' && IsGroupOf(t'[h[i].signature], h[i], h[j])
    {
      GroupByRow(g, e, t, i, j);
    }
  }

  lemma GroupByRow(g: seq<Entry>, e: Entry, t: Table, i: nat, j: nat)
    requires IsGroupBy(g, t)
    requires Spans(g + [e], i, j)
    ensures var h, t' := g + [e], Upsert(t, e);
            h[i].signature in t' && IsGroupOf(t'[h[i].signature], h[i], h[j])
  {
    var h := g + [e];
    var s := h[i].signature;
    if i == |g| {
      assert forall k :: 0 <= k < |g| ==> h[k] == g[k] && h[k].signature != s;
      assert j == |g|;
    } else {
      assert g[i] == h[i];
      assert IsFirst(g, i) by { forall k | 0 <= k < i ensures g[k].signature != s { assert h[k] == g[k]; } }
      var l := LastEntry(g, s, i);
      assert Spans(g, i, l);
      assert IsGroupOf(t[s], g[i], g[l]);
      if j < |g| {
        assert h[|g|].signature != s;
        assert g[j] == h[j];
        assert l == j by { LastUnique(g, e, l, j); }
      }
    }
  }

  lemma LastEntry(g: seq<Entry>, s: string, i: nat) returns (l: nat)
    requires i < |g| && g[i].signature == s
    ensures i <= l < |g| && g[l].signature == s && IsLast(g, l)
    decreases |g| - i
  {
    if IsLast(g, i) {
      l := i;
    } else {
      var k :| i < k < |g| && g[k].signature == g[i].signature;
      l := LastEntry(g, s, k);
    }
  }

  lemma LastUnique(g: seq<Entry>, e: Entry, l: nat, j: nat)
    requires l < |g| && j < |g| && g[l].signature == g[j].signature && IsLast(g, l) && IsLast(g + [e], j)
    ensures l == j
  {
    assert (g + [e])[l] == g[l] && (g + [e])[j] == g[j];
  }

  // ----- times and kinds -----

  /** The entries that made the group of the `k`-th one. */
  lemma GroupOf(h: seq<Entry>, k: nat) returns (i: nat, j: nat)
    requires k < |h|
    ensures i <= k <= j < |h| && h[i].signature == h[k].signature == h[j].signature
    ensures IsFirst(h, i) && IsLast(h, j)
    ensures h[k].signature in Replay(h) && IsGroupOf(Replay(h)[h[k].signature], h[i], h[j])
  {
    hide Replay;
    ReplayIsGroupBy(h);
    var s := h[k].signature;
    i := FirstEntry(h, s);
    j := LastEntry(h, s, k);
    assert Spans(h, i, j);
  }

  /** Two entries of one signature. */
  predicate Together(h: seq<Entry>, i: int, j: int) {
    0 <= i < |h| && 0 <= j < |h| && h[i].signature == h[j].signature
  }

  /** A group's last-seen time is the latest of its entries exactly if no earlier entry of the same
      signature has a later time than the last one. */
  lemma LastSeenIsLatestIff(h: seq<Entry>, k: nat, last: nat)
    requires k < |h| && Together(h, k, last) && IsLast(h, last)
    ensures h[k].signature in Replay(h)
    ensures (forall i :: Together(h, i, k) ==> h[i].seenAt <= Replay(h)[h[k].signature].lastSeen)
      <==> forall i :: Together(h, i, k) && i < last ==> h[i].seenAt <= h[last].seenAt
  {
    hide Replay;
    var f, l := GroupOf(h, k);
    SameLast(h, l, last);
    assert forall i :: Together(h, i, k) && i != last ==> i < last;
  }

  /** Its first-seen time is the earliest exactly if no later entry has an earlier time than the first. */
  lemma FirstSeenIsEarliestIff(h: seq<Entry>, k: nat, first: nat)
    requires k < |h| && Together(h, k, first) && IsFirst(h, first)
    ensures h[k].signature in Replay(h)
    ensures (forall i :: Together(h, i, k) ==> Replay(h)[h[k].signature].firstSeen <= h[i].seenAt)
      <==> forall i :: Together(h, i, k) && first < i ==> h[first].seenAt <= h[i].seenAt
  {
    hide Replay;
    var f, l := GroupOf(h, k);
    SameFirst(h, f, first);
    assert forall i :: Together(h, i, k) && i != first ==> first < i;
  }

  lemma SameLast(h: seq<Entry>, i: nat, j: nat)
    requires i < |h| && j < |h| && h[i].signature == h[j].signature && IsLast(h, i) && IsLast(h, j)
    ensures i == j
  {
  }

  lemma SameFirst(h: seq<Entry>, i: nat, j: nat)
    requires i < |h| && j < |h| && h[i].signature == h[j].signature && IsFirst(h, i) && IsFirst(h, j)
    ensures i == j
  {
  }

  /** When the entries of a group come in the order of their times, as with one worker, its times enclose
      them all. */
  lemma TimesEnclose(h: seq<Entry>, k: nat)
    requires k < |h|
    requires forall i, j :: Together(h, i, j) && Together(h, j, k) && i < j ==> h[i].seenAt <= h[j].seenAt
    ensures var g := Replay(h);
      h[k].signature in g && g[h[k].signature].firstSeen <= h[k].seenAt <= g[h[k].signature].lastSeen
  {
    hide Replay;
    var i, j := GroupOf(h, k);
    assert Together(h, i, k) && Together(h, k, j) && Together(h, k, k) && Together(h, j, k);
  }

  /** Two workers that read their clocks in one order and write in the other leave an earlier time. */
  lemma LastSeenIsNotTheLatest(a: Entry, b: Entry)
    requires a.signature == b.signature && a.seenAt > b.seenAt
    ensures var g := Replay([a, b]); a.signature in g && g[a.signature].lastSeen < a.seenAt
  {
    assert [a, b][..1] == [a] && [a][..0] == [];
    assert Replay([a]) == Upsert(map[], a);
  }

  /** Signatures are keys of the entry's own kind. */
  ghost predicate Keyed(e: Entry) {
    Signature.NoBar(e.kind) && exists x, ns :: e.signature == Signature.KeyText(e.kind, x, ns)
  }

  /** So a group never mixes kinds: every entry has the kind of the group it went into. */
  lemma GroupsHaveOneKind(h: seq<Entry>, k: nat)
    requires forall i :: 0 <= i < |h| ==> Keyed(h[i])
    requires k < |h|
    ensures h[k].signature in Replay(h) && Replay(h)[h[k].signature].kind == h[k].kind
  {
    hide Replay, Keyed;
    var i, j := GroupOf(h, k);
    SameKeySameKind(h[i], h[k]);
  }

  lemma SameKeySameKind(a: Entry, b: Entry)
    requires Keyed(a) && Keyed(b) && a.signature == b.signature
    ensures a.kind == b.kind
  {
    hide Signature.KeyText;
    var x, ns :| a.signature == Signature.KeyText(a.kind, x, ns);
    var y, ms :| b.signature == Signature.KeyText(b.kind, y, ms);
    Signature.KindRecovered(a.kind, x, ns, b.kind, y, ms);
  }
}
