/** The symbol pool and its build-id index: fetching, indexing and collecting symbol trees in the
    decoder, and resolving build-ids in the server. */
module BuildIds {
  import opened Wrappers
  import opened Text

  // ----- the pool's directories -----

  const VMLINUX := "vmlinux"
  const SNAPSHOT := "SNAPSHOT"

  /** Where a tree is, below `kernel/`. */
  datatype Key = Key(version: string, target: string)

  /** The debug files of a tree with the build-id in each, if it has one; and the time in `last_used`, if
      that can be read. */
  datatype Tree = Tree(files: map<string, Option<string>>, lastUsed: Option<int>)

  /** What a link below `.build-id/` points at. */
  datatype Ref = Ref(key: Key, file: string)

  /** Links by the build-id in their own path. */
  type Links = map<string, Ref>

  type Trees = map<Key, Tree>

  predicate Exists(trees: Trees, r: Ref) { r.key in trees && r.file in trees[r.key].files }

  predicate HasKernel(trees: Trees, key: Key) { Exists(trees, Ref(key, VMLINUX)) }

  /** Build-ids of at least two bytes are indexed. */
  predicate Indexable(files: map<string, Option<string>>, name: string) {
    name in files && files[name].Some? && |files[name].value| >= 4
  }

  function LowerChar(c: char): char { if 'A' <= c <= 'Z' then 'a' + (c - 'A') else c }

  /** ASCII lower case. */
  function Lower(s: string): string { seq(|s|, i requires 0 <= i < |s| => LowerChar(s[i])) }

  // ----- the reader -----

  predicate IsBuildId(id: string) { |id| >= 4 && forall i :: 0 <= i < |id| ==> IsHexDigit(id[i]) }

  /** `resolve`: the link for a build-id, if there is one and its target exists. */
  function Resolve(trees: Trees, links: Links, id: string): Option<string> {
    if !IsBuildId(id) then None
    else if Lower(id) in links && Exists(trees, links[Lower(id)]) then Some(Lower(id))
    else None
  }

  // ----- indexing -----

  /** The first `good` of the listed files are linked, or all of them; at the next one the operation fails,
      perhaps after the old link has been removed. */
  datatype Listing = Listing(names: seq<string>, good: nat, lost: bool)

  function LinkOne(links: Links, key: Key, files: map<string, Option<string>>, name: string): Links {
    if Indexable(files, name) then links[files[name].value := Ref(key, name)] else links
  }

  function LinkAll(links: Links, key: Key, files: map<string, Option<string>>, names: seq<string>): Links {
    if names == [] then links
    else LinkOne(LinkAll(links, key, files, names[..|names| - 1]), key, files, names[|names| - 1])
  }

  /** `index_build_ids`. */
  function Index(links: Links, key: Key, files: map<string, Option<string>>, l: Listing): Links {
    if l.good >= |l.names| then LinkAll(links, key, files, l.names)
    else
      var done := LinkAll(links, key, files, l.names[..l.good]);
      if l.lost && Indexable(files, l.names[l.good]) then done - {files[l.names[l.good]].value} else done
  }

  // ----- fetching -----

  /** The tarball: none (no download, or a wrong checksum), or these files, all of it or up to an error. */
  datatype Fetch = NoTarball | Extracted(files: map<string, Option<string>>, whole: bool)

  datatype FetchIo = FetchIo(dropped: bool, fetch: Fetch, listing: Listing, stamped: bool, now: int)

  predicate BadPath(key: Key) { Contains(key.version, "..") || Contains(key.target, "..") }

  /** The cached kernel has a build-id other than the reporting one's. */
  predicate Stale(trees: Trees, key: Key, expected: Option<string>) {
    && HasKernel(trees, key) && expected.Some? && trees[key].files[VMLINUX].Some?
    && Lower(trees[key].files[VMLINUX].value) != Lower(expected.value)
  }

  datatype Pool = Pool(trees: Trees, links: Links)

  function Stamped(trees: Trees, key: Key, stamped: bool, now: int): Trees
    requires key in trees
  {
    if stamped then trees[key := trees[key].(lastUsed := Some(now))] else trees
  }

  /** `extract_tarball`: the files go over what is there. */
  function Unpacked(trees: Trees, key: Key, files: map<string, Option<string>>): Trees {
    var t := if key in trees then trees[key] else Tree(map[], None);
    trees[key := t.(files := t.files + files)]
  }

  function Fetched(p: Pool, key: Key, io: FetchIo): (Pool, bool) {
    if io.fetch.NoTarball? then (p, false)
    else
      var trees := Unpacked(p.trees, key, io.fetch.files);
      if !io.fetch.whole || !HasKernel(trees, key) then (Pool(trees, p.links), false)
      else (Pool(Stamped(trees, key, io.stamped, io.now), Index(p.links, key, trees[key].files, io.listing)), true)
  }

  function Ensured(p: Pool, key: Key, expected: Option<string>, io: FetchIo): (Pool, bool) {
    if BadPath(key) then (p, false)
    else if Stale(p.trees, key, expected) then Fetched(if io.dropped then p.(trees := p.trees - {key}) else p, key, io)
    else if HasKernel(p.trees, key) then (p.(trees := Stamped(p.trees, key, io.stamped, io.now)), true)
    else Fetched(p, key, io)
  }

  /** A snapshot tree that has not been used since the cutoff. */
  predicate Expired(trees: Trees, k: Key, cutoff: int) {
    k in trees && k.version == SNAPSHOT && (if trees[k].lastUsed.Some? then trees[k].lastUsed.value else 0) < cutoff
  }

  /** A tree without a readable time counts as never used. */
  predicate UsedBefore(t: Tree, cutoff: int) {
    match t.lastUsed
    case Some(at) => at < cutoff
    case None => 0 < cutoff
  }

  lemma CollectedSays(p: Pool, cutoff: int, removable: Key -> bool)
    ensures var p' := Collected(p, cutoff, removable);
      && (forall id :: id in p'.links <==> id in p.links && Exists(p'.trees, p.links[id]))
      && (forall id :: id in p'.links ==> p'.links[id] == p.links[id])
      && (forall k :: k in p'.trees <==> k in p.trees && !(k.version == "SNAPSHOT" && removable(k) && UsedBefore(p.trees[k], cutoff)))
      && forall k :: k in p'.trees ==> p'.trees[k] == p.trees[k]
  {
    hide Exists;
  }

  function Kept(trees: Trees, cutoff: int, removable: Key -> bool): Trees {
    map k | k in trees && !(Expired(trees, k, cutoff) && removable(k)) :: trees[k]
  }

  function Collected(p: Pool, cutoff: int, removable: Key -> bool): Pool {
    var trees := Kept(p.trees, cutoff, removable);
    Pool(trees, map id | id in p.links && Exists(trees, p.links[id]) :: p.links[id])
  }

  /** The trees when these have been looked at. */
  function Swept(trees: Trees, done: set<Key>, cutoff: int, removable: Key -> bool): Trees {
    map k | k in trees && !(k in done && Expired(trees, k, cutoff) && removable(k)) :: trees[k]
  }

  lemma SweepNext(trees: Trees, all: set<Key>, keys: set<Key>, k: Key, cutoff: int, removable: Key -> bool)
    requires k in keys && keys <= all <= trees.Keys
    ensures var t := Swept(trees, all - keys, cutoff, removable);
      Swept(trees, all - (keys - {k}), cutoff, removable) == if Expired(t, k, cutoff) && removable(k) then t - {k} else t
  {
    var t := Swept(trees, all - keys, cutoff, removable);
    assert k in t && t[k] == trees[k];
    assert Expired(t, k, cutoff) <==> Expired(trees, k, cutoff);
    hide Expired;
    assert forall j :: j in all - (keys - {k}) <==> j in all - keys || j == k;
  }

  lemma SweepEnds(trees: Trees, cutoff: int, removable: Key -> bool)
    ensures var all := set k | k in trees && k.version == SNAPSHOT;
      Swept(trees, all - all, cutoff, removable) == trees && Swept(trees, all, cutoff, removable) == Kept(trees, cutoff, removable)
  {
  }

  /** The links when all but these have been looked at. */
  function Live(links: Links, trees: Trees, ids: set<string>): Links {
    map id | id in links && (id in ids || Exists(trees, links[id])) :: links[id]
  }

  lemma LiveNext(links: Links, trees: Trees, ids: set<string>, id: string)
    requires id in ids && ids <= links.Keys
    ensures var l := Live(links, trees, ids);
      id in l && Live(links, trees, ids - {id}) == if Exists(trees, l[id]) then l else l - {id}
  {
    hide Exists;
  }

  lemma LiveEnds(links: Links, trees: Trees)
    ensures Live(links, trees, links.Keys) == links
    ensures Live(links, trees, {}) == map id | id in links && Exists(trees, links[id]) :: links[id]
  {
    hide Exists;
  }

  // ----- the code -----

  class SymbolPool {
    var trees: Trees
    var links: Links

    constructor ()
      ensures trees == map[] && links == map[]
    {
      trees, links := map[], map[];
    }

    method IndexBuildIds(key: Key, l: Listing)
      requires key in trees
      modifies this`links
      ensures links == Index(old(links), key, trees[key].files, l)
    {
      var files := trees[key].files;
      var i := 0;
      while i < |l.names|
        invariant i <= |l.names| && i <= l.good
        invariant links == LinkAll(old(links), key, files, l.names[..i])
      {
        var name := l.names[i];
        assert l.names[..i + 1][..i] == l.names[..i];
        if i == l.good {
          if l.lost && Indexable(files, name) {
            links := links - {files[name].value};
          }
          return;
        }
        if Indexable(files, name) {
          links := links[files[name].value := Ref(key, name)];
        }
        i := i + 1;
      }
      assert l.names[..i] == l.names;
    }

    method Stamp(key: Key, stamped: bool, now: int)
      requires key in trees
      modifies this`trees
      ensures trees == Stamped(old(trees), key, stamped, now)
    {
      if stamped {
        trees := trees[key := trees[key].(lastUsed := Some(now))];
      }
    }

    /** `ensure_kernel` with `finish_extract`: whether there is a tree with a kernel at `key` now. */
    method EnsureKernel(key: Key, expected: Option<string>, io: FetchIo) returns (ok: bool)
      modifies this
      ensures (Pool(trees, links), ok) == Ensured(Pool(old(trees), old(links)), key, expected, io)
      ensures Contains(key.version, "..") || Contains(key.target, "..") ==> !ok && trees == old(trees) && links == old(links)
    {
      if BadPath(key) {
        return false;
      }
      if HasKernel(trees, key) {
        if !Stale(trees, key, expected) {
          Stamp(key, io.stamped, io.now);
          return true;
        }
        if io.dropped {
          trees := trees - {key};
        }
      }
      if io.fetch.NoTarball? {
        return false;
      }
      trees := Unpacked(trees, key, io.fetch.files);
      if !io.fetch.whole || !HasKernel(trees, key) {
        return false;
      }
      IndexBuildIds(key, io.listing);
      Stamp(key, io.stamped, io.now);
      return true;
    }

    /** `gc`: `removable` says which stale trees can be removed. */
    method Gc(cutoff: int, removable: Key -> bool)
      modifies this
      ensures Pool(trees, links) == Collected(Pool(old(trees), old(links)), cutoff, removable)
      ensures forall id :: id in links <==> id in old(links) && Exists(trees, old(links)[id])
      ensures forall id :: id in links ==> links[id] == old(links)[id]
      ensures forall k :: k in trees <==> k in old(trees) && !(k.version == "SNAPSHOT" && removable(k) && UsedBefore(old(trees)[k], cutoff))
      ensures forall k :: k in trees ==> trees[k] == old(trees)[k]
    {
      hide Exists, Expired, UsedBefore, Swept, Kept, Live;
      CollectedSays(Pool(trees, links), cutoff, removable);
      var keys := set k | k in trees && k.version == SNAPSHOT;
      ghost var all, trees0 := keys, trees;
      SweepEnds(trees0, cutoff, removable);
      while keys != {}
        invariant keys <= all
        invariant trees == Swept(trees0, all - keys, cutoff, removable)
        invariant links == old(links)
        decreases keys
      {
        var k :| k in keys;
        SweepNext(trees0, all, keys, k, cutoff, removable);
        if Expired(trees, k, cutoff) && removable(k) {
          trees := trees - {k};
        }
        keys := keys - {k};
      }
      assert all - {} == all;
      var ids := links.Keys;
      LiveEnds(links, trees);
      while ids != {}
        invariant ids <= old(links).Keys
        invariant trees == Kept(trees0, cutoff, removable)
        invariant links == Live(old(links), trees, ids)
        decreases ids
      {
        var id :| id in ids;
        LiveNext(old(links), trees, ids, id);
        if !Exists(trees, links[id]) {
          links := links - {id};
        }
        ids := ids - {id};
      }
    }
  }

  // ----- what indexing does to the links -----

  /** A link to a file of this tree that has the link's build-id. */
  predicate Names(r: Ref, key: Key, files: map<string, Option<string>>, id: string) {
    r.key == key && Indexable(files, r.file) && files[r.file] == Some(id)
  }

  ghost predicate HasId(files: map<string, Option<string>>, names: seq<string>, id: string) {
    exists n :: n in names && Indexable(files, n) && files[n] == Some(id)
  }

  /** Links to the tree's files by the build-ids they have; other links stay. */
  ghost predicate Linked(before: Links, after: Links, key: Key, files: map<string, Option<string>>, names: seq<string>) {
    && (forall id :: HasId(files, names, id) ==> id in after && Names(after[id], key, files, id))
    && forall id :: !HasId(files, names, id) ==>
         if id in before then id in after && after[id] == before[id] else id !in after
  }

  lemma {:induction false} LinkAllLinks(links: Links, key: Key, files: map<string, Option<string>>, names: seq<string>)
    ensures Linked(links, LinkAll(links, key, files, names), key, files, names)
  {
    if names != [] {
      var before, n := names[..|names| - 1], names[|names| - 1];
      LinkAllLinks(links, key, files, before);
      assert names == before + [n];
      forall id ensures HasId(files, names, id) <==> HasId(files, before, id) || (Indexable(files, n) && files[n] == Some(id)) {
        HasIdSnoc(files, before, n, id);
      }
    }
  }

  lemma HasIdSnoc(files: map<string, Option<string>>, names: seq<string>, n: string, id: string)
    ensures HasId(files, names + [n], id) <==> HasId(files, names, id) || (Indexable(files, n) && files[n] == Some(id))
  {
    assert n in names + [n];
  }

  // ----- runs of fetches and collections -----

  datatype Event = Ensure(key: Key, expected: Option<string>, io: FetchIo) | Collect(cutoff: int, removable: Key -> bool)

  function Do(p: Pool, e: Event): Pool {
    match e
    case Ensure(key, expected, io) => Ensured(p, key, expected, io).0
    case Collect(cutoff, removable) => Collected(p, cutoff, removable)
  }

  function Run(run: seq<Event>): Pool {
    if run == [] then Pool(map[], map[]) else Do(Run(run[..|run| - 1]), run[|run| - 1])
  }

  /** No cached tree is dropped as stale. */
  ghost predicate NoStale(run: seq<Event>) {
    forall i :: 0 <= i < |run| ==> !DropsStale(Run(run[..i]), run[i])
  }

  predicate DropsStale(p: Pool, e: Event) { e.Ensure? && !BadPath(e.key) && Stale(p.trees, e.key, e.expected) }

  /** A link leads to a file of a complete tree that has the build-id of the link. */
  predicate Right(trees: Trees, id: string, r: Ref) {
    r.key in trees && Names(r, r.key, trees[r.key].files, id) && HasKernel(trees, r.key)
  }

  ghost predicate AllRight(p: Pool) { forall id :: id in p.links ==> Right(p.trees, id, p.links[id]) }

  lemma IndexKeepsRight(p: Pool, key: Key, l: Listing)
    requires AllRight(p) && HasKernel(p.trees, key)
    ensures AllRight(Pool(p.trees, Index(p.links, key, p.trees[key].files, l)))
  {
    hide Right, LinkAll;
    LinkAllLinks(p.links, key, p.trees[key].files, l.names);
    LinkedKeepsRight(p, LinkAll(p.links, key, p.trees[key].files, l.names), key, l.names);
    if l.good < |l.names| {
      LinkAllLinks(p.links, key, p.trees[key].files, l.names[..l.good]);
      LinkedKeepsRight(p, LinkAll(p.links, key, p.trees[key].files, l.names[..l.good]), key, l.names[..l.good]);
    }
  }

  lemma LinkedKeepsRight(p: Pool, links: Links, key: Key, names: seq<string>)
    requires AllRight(p) && HasKernel(p.trees, key) && Linked(p.links, links, key, p.trees[key].files, names)
    ensures AllRight(Pool(p.trees, links))
  {
    hide HasId, Indexable;
  }

  lemma UnpackedKeepsRight(p: Pool, key: Key, files: map<string, Option<string>>)
    requires AllRight(p) && !HasKernel(p.trees, key)
    ensures AllRight(Pool(Unpacked(p.trees, key, files), p.links))
  {
    var trees := Unpacked(p.trees, key, files);
    forall id | id in p.links ensures Right(trees, id, p.links[id]) {
      assert Right(p.trees, id, p.links[id]);
    }
  }

  lemma StampedKeepsRight(p: Pool, key: Key, stamped: bool, now: int)
    requires AllRight(p) && key in p.trees
    ensures AllRight(Pool(Stamped(p.trees, key, stamped, now), p.links))
  {
    forall id | id in p.links ensures Right(Stamped(p.trees, key, stamped, now), id, p.links[id]) {
      assert Right(p.trees, id, p.links[id]);
    }
  }

  lemma EnsuredKeepsRight(p: Pool, key: Key, expected: Option<string>, io: FetchIo)
    requires AllRight(p) && !DropsStale(p, Ensure(key, expected, io))
    ensures AllRight(Ensured(p, key, expected, io).0)
  {
    hide AllRight, Unpacked, Stamped, Index;
    if !BadPath(key) && HasKernel(p.trees, key) {
      StampedKeepsRight(p, key, io.stamped, io.now);
    } else if !BadPath(key) && io.fetch.Extracted? {
      UnpackedKeepsRight(p, key, io.fetch.files);
      var trees := Unpacked(p.trees, key, io.fetch.files);
      if HasKernel(trees, key) {
        IndexKeepsRight(Pool(trees, p.links), key, io.listing);
        StampedKeepsRight(Pool(trees, Index(p.links, key, trees[key].files, io.listing)), key, io.stamped, io.now);
      }
    }
  }

  lemma CollectedKeepsRight(p: Pool, cutoff: int, removable: Key -> bool)
    requires AllRight(p)
    ensures AllRight(Collected(p, cutoff, removable))
  {
    var p' := Collected(p, cutoff, removable);
    forall id | id in p'.links ensures Right(p'.trees, id, p'.links[id]) {
      assert Right(p.trees, id, p.links[id]);
    }
  }

  lemma {:induction false} LinksStayRight(run: seq<Event>)
    requires NoStale(run)
    ensures AllRight(Run(run))
  {
    hide AllRight, DropsStale, Ensured, Collected;
    if run == [] {
      EmptyRight();
    } else {
      var before, e := run[..|run| - 1], run[|run| - 1];
      forall i | 0 <= i < |before| ensures !DropsStale(Run(before[..i]), before[i]) {
        assert before[..i] == run[..i];
      }
      LinksStayRight(before);
      assert !DropsStale(Run(run[..|run| - 1]), e);
      match e
      case Ensure(key, expected, io) => EnsuredKeepsRight(Run(before), key, expected, io);
      case Collect(cutoff, removable) => CollectedKeepsRight(Run(before), cutoff, removable);
    }
  }

  lemma EmptyRight()
    ensures AllRight(Pool(map[], map[]))
  {
  }

  // ----- what the reader finds -----

  /** The same character, or the same ASCII letter. */
  predicate SameLetter(c: char, d: char) {
    || c == d
    || ('A' <= c <= 'Z' && d as int == c as int + 32) || ('A' <= d <= 'Z' && c as int == d as int + 32)
  }

  /** After any such run `resolve` answers for exactly the indexed build-ids, in upper or lower case, and
      each link it gives leads to a file with that build-id. */
  lemma ResolveRight(run: seq<Event>, id: string)
    requires NoStale(run)
    ensures var p := Run(run); var r := Resolve(p.trees, p.links, id);
      && (r.Some? <==> (Lower(id) in p.links && |id| >= 4
                        && forall i :: 0 <= i < |id| ==> '0' <= id[i] <= '9' || 'a' <= id[i] <= 'f' || 'A' <= id[i] <= 'F'))
      && (r.Some? ==> r.value == Lower(id) && Right(p.trees, r.value, p.links[r.value]))
      && |Lower(id)| == |id|
      && forall i :: 0 <= i < |id| ==> SameLetter(Lower(id)[i], id[i]) && !('A' <= Lower(id)[i] <= 'Z')
  {
    hide Run;
    LinksStayRight(run);
    var p := Run(run);
    assert Lower(id) in p.links ==> Right(p.trees, Lower(id), p.links[Lower(id)]);
  }

  /** A complete fetch succeeds and makes each of its files with a build-id resolvable by it, in any case. */
  lemma FetchResolves(p: Pool, key: Key, expected: Option<string>, io: FetchIo, name: string, id: string)
    requires HasKernel(p.trees, key) ==> DropsStale(p, Ensure(key, expected, io))
    requires !Contains(key.version, "..") && !Contains(key.target, "..")
    requires io.fetch.Extracted? && io.fetch.whole && "vmlinux" in io.fetch.files
    requires name in io.fetch.files && name in io.listing.names && io.listing.good >= |io.listing.names|
    requires |id| >= 4 && forall i :: 0 <= i < |id| ==> '0' <= id[i] <= '9' || 'a' <= id[i] <= 'f' || 'A' <= id[i] <= 'F'
    requires Some(Lower(id)) == io.fetch.files[name]
    ensures var (p', ok) := Ensured(p, key, expected, io);
      && ok && Resolve(p'.trees, p'.links, id) == Some(Lower(id))
      && key in p'.trees && Names(p'.links[Lower(id)], key, p'.trees[key].files, Lower(id))
  {
    hide LinkAll, Ensured, HasId, Lower;
    FetchedIndex(p, key, expected, io);
    var p' := Ensured(p, key, expected, io).0;
    var files := p'.trees[key].files;
    LinkAllLinks(p.links, key, files, io.listing.names);
    LowerLength(id);
    assert Indexable(files, name) && files[name] == Some(Lower(id));
    HasIdOf(files, io.listing.names, name, Lower(id));
  }

  lemma LowerLength(id: string)
    ensures |Lower(id)| == |id|
  {
  }

  lemma HasIdOf(files: map<string, Option<string>>, names: seq<string>, name: string, id: string)
    requires name in names && Indexable(files, name) && files[name] == Some(id)
    ensures HasId(files, names, id)
  {
  }

  lemma FetchedIndex(p: Pool, key: Key, expected: Option<string>, io: FetchIo)
    requires HasKernel(p.trees, key) ==> DropsStale(p, Ensure(key, expected, io))
    requires !BadPath(key) && io.fetch.Extracted? && io.fetch.whole && VMLINUX in io.fetch.files
    ensures var (p', ok) := Ensured(p, key, expected, io);
      && ok && key in p'.trees && p'.links == Index(p.links, key, p'.trees[key].files, io.listing)
      && forall n :: n in io.fetch.files ==> n in p'.trees[key].files && p'.trees[key].files[n] == io.fetch.files[n]
  {
    hide LinkAll, Index;
  }

  // ----- when a cached kernel is used -----

  /** Build-ids that differ in more than the case of letters. */
  ghost predicate Other(a: string, b: string) {
    |a| != |b| || exists i :: 0 <= i < |a| && !SameLetter(a[i], b[i])
  }

  lemma LowerIsEqual(a: string, b: string)
    ensures Lower(a) == Lower(b) <==> !Other(a, b)
  {
    if Lower(a) == Lower(b) {
      forall i | 0 <= i < |a| ensures SameLetter(a[i], b[i]) {
        assert Lower(a)[i] == LowerChar(a[i]) && Lower(b)[i] == LowerChar(b[i]);
      }
    }
  }

  /** A cached kernel is used as it is, unless both its build-id and the reporting one are known and differ; then
      its tree is dropped and fetched again. */
  lemma CachedUnlessOther(p: Pool, key: Key, expected: Option<string>, io: FetchIo)
    requires !Contains(key.version, "..") && !Contains(key.target, "..")
    requires key in p.trees && "vmlinux" in p.trees[key].files
    ensures var id := p.trees[key].files["vmlinux"]; var (p', ok) := Ensured(p, key, expected, io);
      if id.Some? && expected.Some? && Other(id.value, expected.value)
      then
        && (io.fetch.NoTarball? ==> !ok && p'.links == p.links && p'.trees == if io.dropped then p.trees - {key} else p.trees)
        && (io.fetch.Extracted? ==>
              key in p'.trees && p'.trees[key].files == (if io.dropped then io.fetch.files else p.trees[key].files + io.fetch.files))
      else
        && ok && p'.links == p.links && p'.trees.Keys == p.trees.Keys && p'.trees[key].files == p.trees[key].files
        && p'.trees[key].lastUsed == (if io.stamped then Some(io.now) else p.trees[key].lastUsed)
        && forall k :: k in p.trees && k != key ==> p'.trees[k] == p.trees[k]
  {
    hide Lower, Index, Other;
    var id := p.trees[key].files["vmlinux"];
    if id.Some? && expected.Some? {
      LowerIsEqual(id.value, expected.value);
    }
    if io.fetch.Extracted? {
      assert map[] + io.fetch.files == io.fetch.files;
    }
  }

  /** A tree that was just used is kept by every collection for trees unused since then or before, and one of a
      release by every collection. */
  lemma UsedTreeStays(p: Pool, key: Key, expected: Option<string>, io: FetchIo, cutoff: int, removable: Key -> bool)
    requires Ensured(p, key, expected, io).1 && (key.version == "SNAPSHOT" ==> io.stamped && cutoff <= io.now)
    ensures var p' := Ensured(p, key, expected, io).0; var p'' := Collected(p', cutoff, removable);
      key in p'.trees && key in p''.trees && p''.trees[key] == p'.trees[key]
  {
    hide Index, BadPath, Lower;
    CollectedSays(Ensured(p, key, expected, io).0, cutoff, removable);
  }

  // ----- links that mislead -----

  /** Links that lead anywhere lead to their own build-id. */
  ghost predicate NoneWrong(p: Pool) {
    forall id :: id in p.links && Exists(p.trees, p.links[id]) ==>
      p.trees[p.links[id].key].files[p.links[id].file] == Some(id)
  }

  /** The event unpacks a tarball. */
  predicate Unpacks(p: Pool, e: Event) {
    e.Ensure? && !BadPath(e.key) && (HasKernel(p.trees, e.key) ==> DropsStale(p, e)) && e.io.fetch.Extracted?
  }

  /** The files of the tree then: the new ones, over the old ones if the tree was not dropped. */
  function FilesAfter(p: Pool, e: Event): map<string, Option<string>>
    requires Unpacks(p, e)
  {
    (if e.key !in p.trees || (DropsStale(p, e) && e.io.dropped) then map[] else p.trees[e.key].files) + e.io.fetch.files
  }

  /** The files that get a link, as far as indexing comes, and the build-id whose link it loses. */
  function Indexed(files: map<string, Option<string>>, io: FetchIo): seq<string>
    requires io.fetch.Extracted?
  {
    if !io.fetch.whole || VMLINUX !in files then []
    else if io.listing.good >= |io.listing.names| then io.listing.names
    else io.listing.names[..io.listing.good]
  }

  function Lost(files: map<string, Option<string>>, io: FetchIo): Option<string>
    requires io.fetch.Extracted?
  {
    var l := io.listing;
    if io.fetch.whole && VMLINUX in files && l.good < |l.names| && l.lost && Indexable(files, l.names[l.good])
    then files[l.names[l.good]] else None
  }

  /** An old link into the tree that is unpacked, dangling or not: its file is there then with another
      build-id, and the link is neither taken over by a new file nor lost. */
  ghost predicate Misleads(p: Pool, e: Event, id: string) {
    && Unpacks(p, e) && id in p.links && p.links[id].key == e.key
    && var files := FilesAfter(p, e);
       && p.links[id].file in files && files[p.links[id].file] != Some(id)
       && !HasId(files, Indexed(files, e.io), id) && Lost(files, e.io) != Some(id)
  }

  ghost predicate SameBut(trees: Trees, trees': Trees, key: Key) {
    && (forall k :: k in trees && k != key ==> k in trees' && trees'[k] == trees[k])
    && forall k :: k in trees' && k != key ==> k in trees
  }

  lemma FetchedSays(p: Pool, key: Key, io: FetchIo)
    requires io.fetch.Extracted?
    ensures var p' := Fetched(p, key, io).0; var files := (if key in p.trees then p.trees[key].files else map[]) + io.fetch.files;
      && key in p'.trees && p'.trees[key].files == files && SameBut(p.trees, p'.trees, key)
      && p'.links == if io.fetch.whole && VMLINUX in files then Index(p.links, key, files, io.listing) else p.links
  {
    hide Index;
  }

  /** Trees and links after unpacking, whatever fails. */
  lemma AfterUnpacking(p: Pool, e: Event)
    requires Unpacks(p, e)
    ensures var p', files := Do(p, e), FilesAfter(p, e);
      && e.key in p'.trees && p'.trees[e.key].files == files && SameBut(p.trees, p'.trees, e.key)
      && p'.links == if e.io.fetch.whole && VMLINUX in files then Index(p.links, e.key, files, e.io.listing) else p.links
  {
    hide Index, BadPath, Lower, Fetched;
    var dropped := DropsStale(p, e) && e.io.dropped;
    FetchedSays(if dropped then p.(trees := p.trees - {e.key}) else p, e.key, e.io);
  }

  /** Old links that no new file takes over stay, but for the lost one. */
  lemma LinksAfter(links: Links, key: Key, files: map<string, Option<string>>, io: FetchIo)
    requires io.fetch.Extracted?
    ensures var links' := if io.fetch.whole && VMLINUX in files then Index(links, key, files, io.listing) else links;
      && (forall id :: HasId(files, Indexed(files, io), id) && id in links' ==> Names(links'[id], key, files, id))
      && (forall id :: !HasId(files, Indexed(files, io), id) ==>
            (id in links' <==> id in links && Lost(files, io) != Some(id)) && (id in links' ==> links'[id] == links[id]))
  {
    hide LinkAll, HasId;
    if io.fetch.whole && VMLINUX in files {
      LinkAllLinks(links, key, files, Indexed(files, io));
    } else {
      NoneHasId(files);
    }
  }

  lemma NoneHasId(files: map<string, Option<string>>)
    ensures forall id :: !HasId(files, [], id)
  {
  }

  /** Any other event only takes trees and links away, or stamps a tree. */
  lemma OtherEvents(p: Pool, e: Event)
    requires !Unpacks(p, e)
    ensures var p' := Do(p, e);
      && (forall id :: id in p'.links ==> id in p.links && p'.links[id] == p.links[id])
      && forall k :: k in p'.trees ==> k in p.trees && p'.trees[k].files == p.trees[k].files
  {
    hide BadPath, Lower, Index;
  }

  lemma UnpackingMisleadsIff(p: Pool, e: Event)
    requires NoneWrong(p) && Unpacks(p, e)
    ensures NoneWrong(Do(p, e)) <==> forall id :: !Misleads(p, e, id)
  {
    var p', files := Do(p, e), FilesAfter(p, e);
    hide Do, Index, HasId, Unpacks, Indexed, Lost, FilesAfter;
    AfterUnpacking(p, e);
    LinksAfter(p.links, e.key, files, e.io);
    if id :| Misleads(p, e, id) {
      assert id in p'.links && Exists(p'.trees, p'.links[id]);
    }
    if forall id :: !Misleads(p, e, id) {
      forall id | id in p'.links && Exists(p'.trees, p'.links[id])
        ensures p'.trees[p'.links[id].key].files[p'.links[id].file] == Some(id)
      {
        assert !Misleads(p, e, id);
      }
    }
  }

  /** From any pool without a wrong link, dangling ones or not, an event keeps it so exactly if it misleads
      no link, wherever dropping, extracting and indexing stop. */
  lemma MisleadsIff(p: Pool, e: Event)
    requires NoneWrong(p)
    ensures NoneWrong(Do(p, e)) <==> forall id :: !Misleads(p, e, id)
  {
    hide Do, Unpacks;
    if Unpacks(p, e) {
      UnpackingMisleadsIff(p, e);
    } else {
      OtherEvents(p, e);
    }
  }

  ghost predicate Misled(run: seq<Event>, i: nat)
    requires i < |run|
  {
    exists id :: Misleads(Run(run[..i]), run[i], id)
  }

  /** So over a run no link is ever wrong exactly if none of its events misleads one. */
  lemma {:induction false} NeverWrongIff(run: seq<Event>)
    ensures (forall i :: 0 <= i <= |run| ==> NoneWrong(Run(run[..i]))) <==> forall i :: 0 <= i < |run| ==> !Misled(run, i)
  {
    hide Do, Misleads, NoneWrong;
    if run == [] {
      NothingWrong();
      assert run[..0] == [];
    } else {
      var before, e := run[..|run| - 1], run[|run| - 1];
      NeverWrongIff(before);
      assert run[..|run|] == run && run[..|before|] == before && before[..|before|] == before;
      assert forall i :: 0 <= i <= |before| ==> run[..i] == before[..i];
      assert forall i :: 0 <= i < |before| ==> (Misled(run, i) <==> Misled(before, i));
      if NoneWrong(Run(before)) {
        MisleadsIff(Run(before), e);
        assert Misled(run, |before|) <==> exists id :: Misleads(Run(before), e, id);
      }
    }
  }

  lemma NothingWrong()
    ensures NoneWrong(Pool(map[], map[]))
  {
  }

  /** A rebuilt snapshot is the usual case: the old build-id then resolves to the new kernel. */
  lemma RebuiltSnapshotMisleads(k: Key, a: string, b: string)
    requires !BadPath(k) && IsBuildId(a) && IsBuildId(b) && Lower(a) == a && Lower(b) == b && a != b
    ensures var p := Pool(map[k := Tree(map[VMLINUX := Some(a)], None)], map[a := Ref(k, VMLINUX)]);
      var io := FetchIo(true, Extracted(map[VMLINUX := Some(b)], true), Listing([VMLINUX], 1, false), false, 0);
      var p' := Ensured(p, k, Some(b), io).0;
      && AllRight(p) && Resolve(p'.trees, p'.links, a) == Some(a)
      && p'.links[a] == Ref(k, VMLINUX) && p'.trees[k].files[VMLINUX] == Some(b)
  {
    var p := Pool(map[k := Tree(map[VMLINUX := Some(a)], None)], map[a := Ref(k, VMLINUX)]);
    var io := FetchIo(true, Extracted(map[VMLINUX := Some(b)], true), Listing([VMLINUX], 1, false), false, 0);
    hide Lower, BadPath;
    assert DropsStale(p, Ensure(k, Some(b), io));
    assert p.trees - {k} == map[];
    assert map[] + io.fetch.files == io.fetch.files;
    var files := map[VMLINUX := Some(b)];
    assert Unpacked(map[], k, files) == map[k := Tree(files, None)];
    assert LinkAll(p.links, k, files, [VMLINUX]) == p.links[b := Ref(k, VMLINUX)] by {
      assert [VMLINUX][..0] == [];
    }
  }
}
