/**
  What `buscar_juegos` promises about its result, proved of the model in
  module `Scanner`: the grouping partitions the admitted executables by
  top-level folder keeping walk order, each group yields one game, no two
  games resolve to the same executable, excluded executables never become
  games, and the result is sorted by lower-cased name.
*/
module ScannerFacts {
  import opened Wrappers
  import opened Text
  import opened Paths
  import opened Exclusion
  import opened Selection
  import opened Ordering
  import opened Scanner

  // ---------------------------------------------------------------------
  // The grouping is a partition of the candidates.

  /** The candidates of group `k`, in walk order. */
  function PathsWithKey(evs: seq<Found>, k: Key): seq<Path>
  {
    if evs == [] then []
    else
      var e := evs[|evs| - 1];
      PathsWithKey(evs[..|evs| - 1], k) + (if e.Candidate? && e.key == k then [e.path] else [])
  }

  /** The keys of the candidates, each once, in order of first appearance. */
  function KeysInOrder(evs: seq<Found>): seq<Key>
  {
    if evs == [] then []
    else
      var e := evs[|evs| - 1];
      var ks := KeysInOrder(evs[..|evs| - 1]);
      if e.Candidate? && e.key !in ks then ks + [e.key] else ks
  }

  /** The skips, in walk order. */
  function SkipsOf(evs: seq<Found>): seq<Skip>
  {
    if evs == [] then []
    else
      var e := evs[|evs| - 1];
      SkipsOf(evs[..|evs| - 1]) + (if e.Excluded? then [e.skip] else [])
  }

  lemma {:induction false} KeysInOrderFacts(evs: seq<Found>)
    ensures forall i, j :: 0 <= i < j < |KeysInOrder(evs)| ==> KeysInOrder(evs)[i] != KeysInOrder(evs)[j]
    ensures forall k :: k in KeysInOrder(evs) <==> PathsWithKey(evs, k) != []
  {
    if evs != [] {
      KeysInOrderFacts(evs[..|evs| - 1]);
    }
  }

  /** `grouped` after the walk holds, under each key in order of first
      appearance, exactly that key's candidates in walk order, and the debug
      list holds the skips in walk order. */
  lemma {:induction false} GroupPartitions(evs: seq<Found>)
    ensures Group(evs).skipped == SkipsOf(evs)
    ensures Group(evs).order == KeysInOrder(evs)
    ensures forall k :: k in Group(evs).members <==> k in KeysInOrder(evs)
    ensures forall k :: k in Group(evs).members ==> Group(evs).members[k] == PathsWithKey(evs, k)
  {
    if evs != [] {
      var init, e := evs[..|evs| - 1], evs[|evs| - 1];
      GroupPartitions(init);
      KeysInOrderFacts(init);
      assert Group(evs) == Record(Group(init), e);
      forall k | k in Group(evs).members
        ensures Group(evs).members[k] == PathsWithKey(evs, k)
      {
        if e.Candidate? && e.key == k && k !in Group(init).members {
          assert PathsWithKey(init, k) == [];
        }
      }
    }
  }

  /** Every key of `grouped` is a distinct entry of its order and has at
      least one executable. */
  lemma GroupKeysDistinct(evs: seq<Found>)
    ensures forall i, j :: 0 <= i < j < |Group(evs).order| ==> Group(evs).order[i] != Group(evs).order[j]
    ensures forall k :: k in Group(evs).members ==> Group(evs).members[k] != []
  {
    GroupPartitions(evs);
    KeysInOrderFacts(evs);
  }

  // ---------------------------------------------------------------------
  // Each group yields one game.

  lemma ChosenInGroup(members: map<Key, seq<Path>>, k: Key, sizes: map<Path, nat>)
    ensures Chosen(members, k, sizes).None? <==> MembersOf(members, k) == []
    ensures Chosen(members, k, sizes).Some? ==> Chosen(members, k, sizes).value in MembersOf(members, k)
  {
  }

  /** A group whose executables all have nonempty paths contributes exactly
      one game, so `order` yields one game per key. */
  lemma {:induction false} OneGamePerGroup(st: ScanState, members: map<Key, seq<Path>>, sizes: map<Path, nat>, order: seq<Key>)
    requires forall k :: k in order ==> MembersOf(members, k) != [] && [] !in MembersOf(members, k)
    ensures |EmitGroups(st, members, sizes, order).games| == |st.games| + |order|
    ensures EmitGroups(st, members, sizes, order).skipped == st.skipped
    ensures forall i :: |st.games| <= i < |EmitGroups(st, members, sizes, order).games| ==>
      !EmitGroups(st, members, sizes, order).games[i].isShortcut
  {
    if order != [] {
      var k, init := order[|order| - 1], order[..|order| - 1];
      var prev := EmitGroups(st, members, sizes, init);
      OneGamePerGroup(st, members, sizes, init);
      EmitGroupKeepsPlain(prev, members, sizes, k, |st.games|);
      assert EmitGroups(st, members, sizes, order) == EmitGroup(prev, members, sizes, k);
    }
  }

  /** No game of `games` from index `n` on is a shortcut. */
  predicate PlainFrom(games: seq<Entry>, n: nat)
  {
    forall i :: n <= i < |games| ==> !games[i].isShortcut
  }

  lemma EmitGroupKeepsPlain(prev: ScanState, members: map<Key, seq<Path>>, sizes: map<Path, nat>, k: Key, n: nat)
    requires MembersOf(members, k) != [] && [] !in MembersOf(members, k)
    requires n <= |prev.games| && PlainFrom(prev.games, n)
    ensures |EmitGroup(prev, members, sizes, k).games| == |prev.games| + 1
    ensures EmitGroup(prev, members, sizes, k).skipped == prev.skipped
    ensures PlainFrom(EmitGroup(prev, members, sizes, k).games, n)
  {
    ChosenInGroup(members, k, sizes);
    var c := Chosen(members, k, sizes).value;
    assert EmitGroup(prev, members, sizes, k).games == prev.games + [GroupGame(k, c)];
    PlainFromAppend(prev.games, GroupGame(k, c), n);
  }

  lemma PlainFromAppend(games: seq<Entry>, e: Entry, n: nat)
    requires n <= |games| && PlainFrom(games, n) && !e.isShortcut
    ensures PlainFrom(games + [e], n)
  {
    forall i | n <= i < |games + [e]| ensures !(games + [e])[i].isShortcut {
      if i < |games| {
        assert (games + [e])[i] == games[i];
      }
    }
  }

  // ---------------------------------------------------------------------
  // Group keys can be read off the paths.

  /** A walk as `os.walk` reports it: components and file names without
      separators, and no component "." directly below the root. */
  predicate WellFormedDir(d: WalkDir)
  {
    PlainNames(d.parts) && (d.parts != [] ==> d.parts[0] != ".")
    && forall k :: 0 <= k < |d.files| ==> Sep !in d.files[k]
  }

  predicate WellFormedWalk(walk: seq<WalkDir>)
  {
    forall i :: 0 <= i < |walk| ==> WellFormedDir(walk[i])
  }

  /** The group a file path belongs to, read off the path: the first
      component below the root when a separator follows it, `None` for a
      file directly in the root. */
  function KeyOfPath(root: Path, p: Path): Key
  {
    var d := DirPrefix(root);
    if StartsWith(p, d) && Sep in p[|d|..] then Some(FirstComponent(p[|d|..])) else None
  }

  lemma KeyOfRootFile(root: Path, f: string)
    requires Sep !in f
    ensures KeyOfPath(root, Join(root, f)) == None
  {
    assert Join(root, f)[|DirPrefix(root)|..] == f;
  }

  lemma KeyBelow(root: Path, p: Path, w: string, t: string)
    requires p == DirPrefix(root) + (w + t)
    requires Sep !in w && t != [] && t[0] == Sep
    ensures KeyOfPath(root, p) == Some(w)
  {
    var d := DirPrefix(root);
    assert p[..|d|] == d;
    assert p[|d|..] == w + t;
    assert (w + t)[|w|] == Sep;
    FirstComponentOfPrefix(w, t);
  }

  lemma KeyOfJoinBelow(root: Path, d: Path, w: string, b: string, f: string)
    requires d == DirPrefix(root) + w + b && d != [] && !EndsWithSep(d)
    requires Sep !in w && (b == [] || b[0] == Sep)
    ensures KeyOfPath(root, Join(d, f)) == Some(w)
  {
    JoinAfter(d, DirPrefix(root), w + b, f);
    Regroup(w, b, [Sep], f);
    KeyBelow(root, Join(d, f), w, b + [Sep] + f);
  }

  lemma Regroup<T>(a: seq<T>, b: seq<T>, c: seq<T>, e: seq<T>)
    ensures a + b + c + e == a + (b + c + e)
  {
  }

  lemma KeyOfNestedFile(root: Path, parts: seq<string>, f: string)
    requires parts != [] && PlainNames(parts)
    ensures KeyOfPath(root, Join(DirPath(root, parts), f)) == Some(parts[0])
  {
    DirPathForm(root, parts);
    LastCharNotSep(DirPath(root, parts), parts[|parts| - 1]);
    BelowStartsWithSep(parts);
    KeyOfJoinBelow(root, DirPath(root, parts), parts[0], Below(parts), f);
  }

  lemma DirKey(root: Path, d: WalkDir)
    requires WellFormedDir(d)
    ensures KeyOfDir(root, DirPath(root, d.parts)) == if d.parts == [] then None else Some(d.parts[0])
  {
    if d.parts != [] {
      RelTopOfDirPath(root, d.parts);
    }
  }

  /** Every candidate's key is the key of its path. */
  predicate KeyedBy(root: Path, evs: seq<Found>)
  {
    forall i :: 0 <= i < |evs| && evs[i].Candidate? ==>
      KeyOfPath(root, evs[i].path) == evs[i].key && (evs[i].key.Some? ==> evs[i].key.value != [])
  }

  lemma KeyedByConcat(root: Path, a: seq<Found>, b: seq<Found>)
    requires KeyedBy(root, a) && KeyedBy(root, b)
    ensures KeyedBy(root, a + b)
  {
    forall i | 0 <= i < |a + b| && (a + b)[i].Candidate?
      ensures KeyOfPath(root, (a + b)[i].path) == (a + b)[i].key && ((a + b)[i].key.Some? ==> (a + b)[i].key.value != [])
    {
      if i >= |a| {
        assert (a + b)[i] == b[i - |a|];
      }
    }
  }

  lemma {:induction false} DirEventsKeyed(root: Path, d: WalkDir, files: seq<string>)
    requires WellFormedDir(d)
    requires forall k :: 0 <= k < |files| ==> Sep !in files[k]
    ensures KeyedBy(root, DirEvents(DirPath(root, d.parts), KeyOfDir(root, DirPath(root, d.parts)), files))
  {
    if files != [] {
      var dir := DirPath(root, d.parts);
      var f := files[|files| - 1];
      DirEventsKeyed(root, d, files[..|files| - 1]);
      DirKey(root, d);
      if d.parts == [] {
        KeyOfRootFile(root, f);
      } else {
        KeyOfNestedFile(root, d.parts, f);
      }
      KeyedByConcat(root, DirEvents(dir, KeyOfDir(root, dir), files[..|files| - 1]), FileEvents(dir, KeyOfDir(root, dir), f));
    }
  }

  lemma {:induction false} EventsKeyed(root: Path, walk: seq<WalkDir>)
    requires WellFormedWalk(walk)
    ensures KeyedBy(root, Events(root, walk))
  {
    if walk != [] {
      var d := walk[|walk| - 1];
      EventsKeyed(root, walk[..|walk| - 1]);
      DirEventsKeyed(root, d, d.files);
      KeyedByConcat(root, Events(root, walk[..|walk| - 1]), WalkDirEvents(root, d));
    }
  }

  lemma {:induction false} PathsWithKeyKeyed(root: Path, evs: seq<Found>, k: Key)
    requires KeyedBy(root, evs)
    ensures forall p :: p in PathsWithKey(evs, k) ==> KeyOfPath(root, p) == k && (k.Some? ==> k.value != [])
  {
    if evs != [] {
      PathsWithKeyKeyed(root, evs[..|evs| - 1], k);
    }
  }

  /** Under a well-formed walk, every executable in group `k` has key `k`,
      and a folder key is a nonempty name. */
  lemma GroupMembersKeyed(root: Path, walk: seq<WalkDir>)
    requires WellFormedWalk(walk)
    ensures MembersKeyed(root, Group(Events(root, walk)).members)
  {
    EventsKeyed(root, walk);
    GroupMembersKeyedBy(root, Events(root, walk));
  }

  /** Every path of group `k` has key `k`, and a folder key is a nonempty name. */
  predicate MembersKeyed(root: Path, members: map<Key, seq<Path>>)
  {
    forall k, p :: k in members && p in members[k] ==> KeyOfPath(root, p) == k && (k.Some? ==> k.value != [])
  }

  lemma GroupMembersKeyedBy(root: Path, evs: seq<Found>)
    requires KeyedBy(root, evs)
    ensures MembersKeyed(root, Group(evs).members)
  {
    forall k, p | k in Group(evs).members && p in Group(evs).members[k]
      ensures KeyOfPath(root, p) == k && (k.Some? ==> k.value != [])
    {
      KeyedMember(root, evs, k, p);
    }
  }

  lemma KeyedMember(root: Path, evs: seq<Found>, k: Key, p: Path)
    requires KeyedBy(root, evs) && k in Group(evs).members && p in Group(evs).members[k]
    ensures KeyOfPath(root, p) == k && (k.Some? ==> k.value != [])
  {
    GroupPartitions(evs);
    PathsWithKeyKeyed(root, evs, k);
  }

  // ---------------------------------------------------------------------
  // No two games resolve to the same executable.

  predicate Apart(a: Entry, b: Entry)
  {
    a.resolved.None? || a.resolved != b.resolved
  }

  predicate DistinctTargets(games: seq<Entry>)
  {
    Pairwise(games, Apart)
  }

  /** `seen_exes` holds every resolved path emitted so far, and no two
      emitted games share one. */
  predicate Tracked(st: ScanState)
  {
    DistinctTargets(st.games)
    && forall i :: 0 <= i < |st.games| && st.games[i].resolved.Some? ==> st.games[i].resolved.value in st.seen
  }

  /** Every game of `st` resolves to a path whose key is in `keys`. */
  predicate GamesKeyedIn(root: Path, st: ScanState, keys: seq<Key>)
  {
    forall i :: 0 <= i < |st.games| ==> st.games[i].resolved.Some? && KeyOfPath(root, st.games[i].resolved.value) in keys
  }

  lemma AddGameTracked(root: Path, st: ScanState, keys: seq<Key>, k: Key, c: Path)
    requires Tracked(st) && GamesKeyedIn(root, st, keys) && k !in keys && KeyOfPath(root, c) == k
    ensures var r := st.(games := st.games + [GroupGame(k, c)], seen := st.seen + {c});
      Tracked(r) && GamesKeyedIn(root, r, keys + [k])
  {
    var g := GroupGame(k, c);
    var games := st.games + [g];
    forall a, b | 0 <= a < b < |games| ensures Apart(games[a], games[b]) {
      assert games[a] == st.games[a];
      if b == |st.games| {
        assert games[b] == g;
        assert KeyOfPath(root, st.games[a].resolved.value) in keys;
      } else {
        assert games[b] == st.games[b];
      }
    }
    forall i | 0 <= i < |games|
      ensures games[i].resolved.Some? && games[i].resolved.value in st.seen + {c}
      ensures KeyOfPath(root, games[i].resolved.value) in keys + [k]
    {
      if i < |st.games| {
        assert games[i] == st.games[i];
      }
    }
  }

  lemma EmitGroupTracked(root: Path, st: ScanState, members: map<Key, seq<Path>>, sizes: map<Path, nat>, keys: seq<Key>, k: Key)
    requires Tracked(st) && GamesKeyedIn(root, st, keys) && k !in keys
    requires forall k, p :: k in members && p in members[k] ==> KeyOfPath(root, p) == k
    ensures Tracked(EmitGroup(st, members, sizes, k)) && GamesKeyedIn(root, EmitGroup(st, members, sizes, k), keys + [k])
  {
    ChosenInGroup(members, k, sizes);
    var c := Chosen(members, k, sizes);
    if c.Some? && c.value != [] {
      AddGameTracked(root, st, keys, k, c.value);
    }
  }

  lemma {:induction false} EmitGroupsTracked(root: Path, members: map<Key, seq<Path>>, sizes: map<Path, nat>, order: seq<Key>, skips: seq<Skip>)
    requires forall i, j :: 0 <= i < j < |order| ==> order[i] != order[j]
    requires forall k, p :: k in members && p in members[k] ==> KeyOfPath(root, p) == k
    ensures Tracked(EmitGroups(ScanState([], skips, {}), members, sizes, order))
    ensures GamesKeyedIn(root, EmitGroups(ScanState([], skips, {}), members, sizes, order), order)
  {
    if order != [] {
      var init, k := order[..|order| - 1], order[|order| - 1];
      EmitGroupsTracked(root, members, sizes, init, skips);
      assert init + [k] == order;
      EmitGroupTracked(root, EmitGroups(ScanState([], skips, {}), members, sizes, init), members, sizes, init, k);
    }
  }

  lemma AddEntryTracked(st: ScanState, e: Entry)
    requires Tracked(st) && (e.resolved.Some? ==> e.resolved.value !in st.seen)
    ensures Tracked(st.(games := st.games + [e], seen := if e.resolved.Some? then st.seen + {e.resolved.value} else st.seen))
  {
    var games := st.games + [e];
    forall a, b | 0 <= a < b < |games| ensures Apart(games[a], games[b]) {
      if b == |st.games| && games[a].resolved.Some? {
        assert games[a] == st.games[a];
      }
    }
  }

  lemma LinkStepTracked(st: ScanState, root: Path, disk: Disk, f: string)
    requires Tracked(st)
    ensures Tracked(LinkStep(st, root, disk, f))
  {
    var lnk := Join(root, f);
    if IsLink(f) {
      if ResolvesToExe(disk, lnk) {
        var target := disk.links[lnk];
        if !ExcludedByName(Basename(target)) && target !in st.seen {
          AddEntryTracked(st, Entry(LinkName(root, target), lnk, Dirname(target), true, Some(target)));
        }
      } else {
        AddEntryTracked(st, Entry(Stem(f), lnk, UnresolvedFolder(root, disk, f), true, None));
      }
    }
  }

  lemma {:induction false} LinkPassTracked(st: ScanState, root: Path, disk: Disk, names: seq<string>)
    requires Tracked(st)
    ensures Tracked(LinkPass(st, root, disk, names))
  {
    if names != [] {
      LinkPassTracked(st, root, disk, names[..|names| - 1]);
      LinkStepTracked(LinkPass(st, root, disk, names[..|names| - 1]), root, disk, names[|names| - 1]);
    }
  }

  lemma ApartSymmetric()
    ensures forall a, b :: Apart(a, b) == Apart(b, a)
  {
  }

  lemma AfterGroupsTracked(root: Path, walk: seq<WalkDir>, disk: Disk)
    requires WellFormedWalk(walk)
    ensures Tracked(AfterGroups(root, walk, disk))
  {
    var g := Group(Events(root, walk));
    GroupKeysDistinct(Events(root, walk));
    GroupMembersKeyed(root, walk);
    EmitGroupsTracked(root, g.members, disk.sizes, g.order, g.skipped);
  }

  /** No two games of the result resolve to the same executable. */
  lemma ScanTargetsDistinct(root: Path, walk: seq<WalkDir>, disk: Disk, includeLinks: bool)
    requires WellFormedWalk(walk)
    ensures DistinctTargets(ScanSpec(root, walk, disk, includeLinks).0)
  {
    AfterGroupsTracked(root, walk, disk);
    var st := AfterGroups(root, walk, disk);
    if includeLinks && root in disk.listings {
      LinkPassTracked(st, root, disk, disk.listings[root]);
    }
    ApartSymmetric();
    SortByKeepsPairwise(AfterLinks(root, walk, disk, includeLinks).games, NameKey, Apart);
  }

  // ---------------------------------------------------------------------
  // Only admitted executables become games.

  /** `p` is the path of an executable of the walk that neither its name
      nor its directory excludes. */
  predicate Admitted(root: Path, walk: seq<WalkDir>, p: Path)
  {
    exists i, k :: 0 <= i < |walk| && 0 <= k < |walk[i].files| && AdmittedFile(DirPath(root, walk[i].parts), walk[i].files[k], p)
  }

  predicate AdmittedFile(dir: Path, f: string, p: Path)
  {
    p == Join(dir, f) && IsExe(f) && !ExcludedByName(f) && !ExcludedByFolder(dir)
  }

  /** The skip `s` records the walked file `f` of `dir`: an `.exe` that a
      filter excludes, with reason `excluded_by_name` exactly when the name
      filter does, `excluded_by_folder` otherwise. */
  predicate SkipOfFile(dir: Path, f: string, s: Skip)
  {
    IsExe(f) && s.path == Join(dir, f) && (ExcludedByName(f) || ExcludedByFolder(dir))
    && (s.reason == ByName <==> ExcludedByName(f))
    && (s.reason == ByFolder <==> !ExcludedByName(f))
  }

  /** `s` is the skip of some file of the walk. */
  predicate SkipFromWalk(root: Path, walk: seq<WalkDir>, s: Skip)
  {
    exists i, k :: 0 <= i < |walk| && 0 <= k < |walk[i].files| && SkipOfFile(DirPath(root, walk[i].parts), walk[i].files[k], s)
  }

  /** Every candidate event is an admitted executable, and every skip event
      is the skip of a walked file. */
  predicate FromWalk(root: Path, walk: seq<WalkDir>, evs: seq<Found>)
  {
    forall i :: 0 <= i < |evs| ==>
      (evs[i].Candidate? ==> Admitted(root, walk, evs[i].path))
      && (evs[i].Excluded? ==> SkipFromWalk(root, walk, evs[i].skip))
  }

  lemma FromWalkConcat(root: Path, walk: seq<WalkDir>, a: seq<Found>, b: seq<Found>)
    requires FromWalk(root, walk, a) && FromWalk(root, walk, b)
    ensures FromWalk(root, walk, a + b)
  {
    forall i | 0 <= i < |a + b|
      ensures ((a + b)[i].Candidate? ==> Admitted(root, walk, (a + b)[i].path))
        && ((a + b)[i].Excluded? ==> SkipFromWalk(root, walk, (a + b)[i].skip))
    {
      if i >= |a| {
        assert (a + b)[i] == b[i - |a|];
      } else {
        assert (a + b)[i] == a[i];
      }
    }
  }

  lemma AdmittedGrows(root: Path, walk: seq<WalkDir>, n: nat, p: Path)
    requires n <= |walk| && Admitted(root, walk[..n], p)
    ensures Admitted(root, walk, p)
  {
    var i, k :| 0 <= i < n && 0 <= k < |walk[..n][i].files| && AdmittedFile(DirPath(root, walk[..n][i].parts), walk[..n][i].files[k], p);
    assert walk[..n][i] == walk[i];
  }

  lemma FileEventsAdmitted(root: Path, walk: seq<WalkDir>, i: nat, k: nat, key: Key)
    requires i < |walk| && k < |walk[i].files|
    ensures FromWalk(root, walk, FileEvents(DirPath(root, walk[i].parts), key, walk[i].files[k]))
  {
    var dir, f := DirPath(root, walk[i].parts), walk[i].files[k];
    var fe := FileEvents(dir, key, f);
    if fe != [] && fe[0].Candidate? {
      assert AdmittedFile(dir, f, fe[0].path);
    } else if fe != [] {
      assert SkipOfFile(dir, f, fe[0].skip);
    }
  }

  lemma {:induction false} DirEventsAdmitted(root: Path, walk: seq<WalkDir>, i: nat, m: nat)
    requires i < |walk| && m <= |walk[i].files|
    ensures var dir := DirPath(root, walk[i].parts);
      FromWalk(root, walk, DirEvents(dir, KeyOfDir(root, dir), walk[i].files[..m]))
  {
    if m > 0 {
      var dir := DirPath(root, walk[i].parts);
      var key := KeyOfDir(root, dir);
      DirEventsAdmitted(root, walk, i, m - 1);
      FileEventsAdmitted(root, walk, i, m - 1, key);
      DirEventsStepAdmitted(root, walk, dir, key, walk[i].files, m);
    }
  }

  lemma DirEventsStepAdmitted(root: Path, walk: seq<WalkDir>, dir: Path, key: Key, files: seq<string>, m: nat)
    requires 0 < m <= |files|
    requires FromWalk(root, walk, DirEvents(dir, key, files[..m - 1]))
    requires FromWalk(root, walk, FileEvents(dir, key, files[m - 1]))
    ensures FromWalk(root, walk, DirEvents(dir, key, files[..m]))
  {
    assert files[..m] == files[..m - 1] + [files[m - 1]];
    DirEventsSnoc(dir, key, files[..m - 1], files[m - 1]);
    FromWalkConcat(root, walk, DirEvents(dir, key, files[..m - 1]), FileEvents(dir, key, files[m - 1]));
  }

  lemma DirEventsSnoc(dir: Path, key: Key, files: seq<string>, f: string)
    ensures DirEvents(dir, key, files + [f]) == DirEvents(dir, key, files) + FileEvents(dir, key, f)
  {
    assert (files + [f])[..|files|] == files;
  }

  lemma {:induction false} EventsAdmitted(root: Path, walk: seq<WalkDir>, n: nat)
    requires n <= |walk|
    ensures FromWalk(root, walk, Events(root, walk[..n]))
  {
    if n > 0 {
      assert walk[..n][..n - 1] == walk[..n - 1];
      EventsAdmitted(root, walk, n - 1);
      DirEventsAdmitted(root, walk, n - 1, |walk[n - 1].files|);
      assert walk[n - 1].files[..|walk[n - 1].files|] == walk[n - 1].files;
      FromWalkConcat(root, walk, Events(root, walk[..n - 1]), WalkDirEvents(root, walk[n - 1]));
    }
  }

  lemma {:induction false} PathsWithKeyAdmitted(root: Path, walk: seq<WalkDir>, evs: seq<Found>, k: Key)
    requires FromWalk(root, walk, evs)
    ensures forall p :: p in PathsWithKey(evs, k) ==> Admitted(root, walk, p)
  {
    if evs != [] {
      PathsWithKeyAdmitted(root, walk, evs[..|evs| - 1], k);
    }
  }

  /** The grouping's executables are all admitted. */
  lemma GroupMembersAdmitted(root: Path, walk: seq<WalkDir>)
    ensures forall k, p :: (k in Group(Events(root, walk)).members && p in Group(Events(root, walk)).members[k]
      ==> Admitted(root, walk, p))
  {
    var evs := Events(root, walk);
    assert walk[..|walk|] == walk;
    EventsAdmitted(root, walk, |walk|);
    GroupPartitions(evs);
    forall k, p | k in Group(evs).members && p in Group(evs).members[k] ensures Admitted(root, walk, p) {
      PathsWithKeyAdmitted(root, walk, evs, k);
    }
  }

  lemma {:induction false} SkipsOfFromWalk(root: Path, walk: seq<WalkDir>, evs: seq<Found>)
    requires FromWalk(root, walk, evs)
    ensures forall s :: s in SkipsOf(evs) ==> SkipFromWalk(root, walk, s)
  {
    if evs != [] {
      var init := evs[..|evs| - 1];
      assert FromWalk(root, walk, init) by {
        forall i | 0 <= i < |init| ensures init[i] == evs[i] { }
      }
      SkipsOfFromWalk(root, walk, init);
    }
  }

  /** The skipped list holds only walked `.exe` files that a filter
      excludes, each with the reason of the first filter that does. */
  lemma GroupSkipsFromWalk(root: Path, walk: seq<WalkDir>)
    ensures forall s :: s in Group(Events(root, walk)).skipped ==> SkipFromWalk(root, walk, s)
  {
    var evs := Events(root, walk);
    assert walk[..|walk|] == walk;
    EventsAdmitted(root, walk, |walk|);
    GroupPartitions(evs);
    SkipsOfFromWalk(root, walk, evs);
  }

  /** The skipped list holds exactly the skips of the walked files: every
      walked `.exe` that a filter excludes, with `excluded_by_name` exactly
      when the name filter does, and nothing else. */
  lemma SkippedExactly(root: Path, walk: seq<WalkDir>, s: Skip)
    ensures s in Group(Events(root, walk)).skipped <==> SkipFromWalk(root, walk, s)
  {
    GroupSkipsFromWalk(root, walk);
    if SkipFromWalk(root, walk, s) {
      var i, k :| 0 <= i < |walk| && 0 <= k < |walk[i].files| && SkipOfFile(DirPath(root, walk[i].parts), walk[i].files[k], s);
      WalkFilesClassified(root, walk, i, k);
    }
  }

  // ---------------------------------------------------------------------
  // Every walked executable is grouped or skipped.

  lemma InConcat<T>(a: seq<T>, b: seq<T>, x: T)
    requires x in a || x in b
    ensures x in a + b
  {
  }

  lemma {:induction false} DirEventsHas(dir: Path, key: Key, files: seq<string>, n: nat, m: nat)
    requires m < n <= |files| && IsExe(files[m])
    ensures FileEvents(dir, key, files[m])[0] in DirEvents(dir, key, files[..n])
  {
    var pre := files[..n];
    assert pre[..n - 1] == files[..n - 1];
    if m < n - 1 {
      DirEventsHas(dir, key, files, n - 1, m);
    }
    InConcat(DirEvents(dir, key, files[..n - 1]), FileEvents(dir, key, pre[n - 1]), FileEvents(dir, key, files[m])[0]);
  }

  lemma {:induction false} EventsHas(root: Path, walk: seq<WalkDir>, n: nat, i: nat, e: Found)
    requires i < n <= |walk| && e in WalkDirEvents(root, walk[i])
    ensures e in Events(root, walk[..n])
  {
    var pre := walk[..n];
    assert pre[..n - 1] == walk[..n - 1];
    if i < n - 1 {
      EventsHas(root, walk, n - 1, i, e);
    }
    InConcat(Events(root, walk[..n - 1]), WalkDirEvents(root, pre[n - 1]), e);
  }

  lemma {:induction false} SkipsOfHas(evs: seq<Found>, e: Found)
    requires e in evs && e.Excluded?
    ensures e.skip in SkipsOf(evs)
  {
    if e != evs[|evs| - 1] {
      assert e in evs[..|evs| - 1];
      SkipsOfHas(evs[..|evs| - 1], e);
    }
  }

  lemma {:induction false} PathsWithKeyHas(evs: seq<Found>, e: Found)
    requires e in evs && e.Candidate?
    ensures e.path in PathsWithKey(evs, e.key)
  {
    if e != evs[|evs| - 1] {
      assert e in evs[..|evs| - 1];
      PathsWithKeyHas(evs[..|evs| - 1], e);
    }
  }

  /** File `k` of walked directory `i`: an executable its name excludes is
      skipped as `excluded_by_name`; one its directory excludes is skipped as
      `excluded_by_folder`; any other executable joins the group of its
      directory's key. */
  lemma WalkFilesClassified(root: Path, walk: seq<WalkDir>, i: nat, k: nat)
    requires i < |walk| && k < |walk[i].files|
    ensures var dir, f, g := DirPath(root, walk[i].parts), walk[i].files[k], Group(Events(root, walk));
      (IsExe(f) && ExcludedByName(f) ==> Skip(Join(dir, f), ByName) in g.skipped)
      && (IsExe(f) && !ExcludedByName(f) && ExcludedByFolder(dir) ==> Skip(Join(dir, f), ByFolder) in g.skipped)
      && (IsExe(f) && !ExcludedByName(f) && !ExcludedByFolder(dir) ==>
            KeyOfDir(root, dir) in g.members && Join(dir, f) in g.members[KeyOfDir(root, dir)])
  {
    var dir, f := DirPath(root, walk[i].parts), walk[i].files[k];
    var evs := Events(root, walk);
    if IsExe(f) {
      var e := FileEvents(dir, KeyOfDir(root, dir), f)[0];
      DirEventsHas(dir, KeyOfDir(root, dir), walk[i].files, |walk[i].files|, k);
      assert walk[i].files[..|walk[i].files|] == walk[i].files;
      EventsHas(root, walk, |walk|, i, e);
      assert walk[..|walk|] == walk;
      GroupPartitions(evs);
      KeysInOrderFacts(evs);
      if e.Excluded? {
        SkipsOfHas(evs, e);
      } else {
        PathsWithKeyHas(evs, e);
      }
    }
  }

  lemma KeyOfWalkedFile(root: Path, walk: seq<WalkDir>, i: nat, k: nat)
    requires WellFormedWalk(walk) && i < |walk| && k < |walk[i].files|
    ensures KeyOfPath(root, Join(DirPath(root, walk[i].parts), walk[i].files[k])) == KeyOfDir(root, DirPath(root, walk[i].parts))
  {
    assert WellFormedDir(walk[i]);
    DirKey(root, walk[i]);
    if walk[i].parts == [] {
      KeyOfRootFile(root, walk[i].files[k]);
    } else {
      KeyOfNestedFile(root, walk[i].parts, walk[i].files[k]);
    }
  }

  /** The group a path belongs to holds it exactly when it is an admitted
      executable of the walk. */
  lemma GroupsHoldAdmitted(root: Path, walk: seq<WalkDir>, p: Path)
    requires WellFormedWalk(walk)
    ensures var g := Group(Events(root, walk));
      Admitted(root, walk, p) <==> KeyOfPath(root, p) in g.members && p in g.members[KeyOfPath(root, p)]
  {
    GroupMembersAdmitted(root, walk);
    if Admitted(root, walk, p) {
      var i, k :| 0 <= i < |walk| && 0 <= k < |walk[i].files| && AdmittedFile(DirPath(root, walk[i].parts), walk[i].files[k], p);
      WalkFilesClassified(root, walk, i, k);
      KeyOfWalkedFile(root, walk, i, k);
    }
  }

  /** A game of the group pass: not a shortcut, resolving to its own path,
      which is admitted. */
  predicate AdmittedGame(root: Path, walk: seq<WalkDir>, e: Entry)
  {
    !e.isShortcut && e.resolved == Some(e.path) && e.folder == Dirname(e.path) && Admitted(root, walk, e.path)
  }

  lemma EmitGroupAdmitted(root: Path, walk: seq<WalkDir>, st: ScanState, members: map<Key, seq<Path>>, sizes: map<Path, nat>, k: Key)
    requires forall k, p :: k in members && p in members[k] ==> Admitted(root, walk, p)
    requires forall e :: e in st.games ==> AdmittedGame(root, walk, e)
    ensures forall e :: e in EmitGroup(st, members, sizes, k).games ==> AdmittedGame(root, walk, e)
  {
    ChosenInGroup(members, k, sizes);
  }

  /** The games of the group pass are admitted executables. */
  lemma {:induction false} EmittedAdmitted(root: Path, walk: seq<WalkDir>, st: ScanState, members: map<Key, seq<Path>>, sizes: map<Path, nat>, order: seq<Key>)
    requires forall k, p :: k in members && p in members[k] ==> Admitted(root, walk, p)
    requires forall e :: e in st.games ==> AdmittedGame(root, walk, e)
    ensures forall e :: e in EmitGroups(st, members, sizes, order).games ==> AdmittedGame(root, walk, e)
  {
    if order != [] {
      EmittedAdmitted(root, walk, st, members, sizes, order[..|order| - 1]);
      EmitGroupAdmitted(root, walk, EmitGroups(st, members, sizes, order[..|order| - 1]), members, sizes, order[|order| - 1]);
    }
  }

  lemma AfterGroupsAdmitted(root: Path, walk: seq<WalkDir>, disk: Disk)
    ensures forall e :: e in AfterGroups(root, walk, disk).games ==> AdmittedGame(root, walk, e)
  {
    var g := Group(Events(root, walk));
    GroupMembersAdmitted(root, walk);
    EmittedAdmitted(root, walk, ScanState([], g.skipped, {}), g.members, disk.sizes, g.order);
  }

  lemma {:induction false} LinkPassOnlyShortcuts(st: ScanState, root: Path, disk: Disk, names: seq<string>)
    ensures |st.games| <= |LinkPass(st, root, disk, names).games|
    ensures LinkPass(st, root, disk, names).games[..|st.games|] == st.games
    ensures forall i :: |st.games| <= i < |LinkPass(st, root, disk, names).games| ==>
      LinkPass(st, root, disk, names).games[i].isShortcut
  {
    if names != [] {
      LinkPassOnlyShortcuts(st, root, disk, names[..|names| - 1]);
    }
  }

  lemma InSorted(games: seq<Entry>, e: Entry)
    requires e in SortBy(games, NameKey)
    ensures e in games
  {
    SortByPermutes(games, NameKey);
    assert e in multiset(SortBy(games, NameKey));
  }

  lemma ShortcutsAfter(st: ScanState, all: seq<Entry>, e: Entry)
    requires |st.games| <= |all| && all[..|st.games|] == st.games
    requires forall i :: |st.games| <= i < |all| ==> all[i].isShortcut
    requires e in all && !e.isShortcut
    ensures e in st.games
  {
    var i :| 0 <= i < |all| && all[i] == e;
    assert all[..|st.games|][i] == e;
  }

  lemma AfterLinksAdmitted(root: Path, walk: seq<WalkDir>, disk: Disk, includeLinks: bool)
    ensures forall e :: e in AfterLinks(root, walk, disk, includeLinks).games && !e.isShortcut ==> AdmittedGame(root, walk, e)
  {
    AfterGroupsAdmitted(root, walk, disk);
    var st := AfterGroups(root, walk, disk);
    if includeLinks && root in disk.listings {
      var all := LinkPass(st, root, disk, disk.listings[root]).games;
      LinkPassOnlyShortcuts(st, root, disk, disk.listings[root]);
      forall e | e in all && !e.isShortcut ensures AdmittedGame(root, walk, e) {
        ShortcutsAfter(st, all, e);
      }
    }
  }

  /** Every game that is not a shortcut is an executable found by the walk
      whose name and folder are not excluded, and resolves to itself. */
  lemma ScanGamesAdmitted(root: Path, walk: seq<WalkDir>, disk: Disk, includeLinks: bool)
    ensures forall e :: e in ScanSpec(root, walk, disk, includeLinks).0 && !e.isShortcut ==> AdmittedGame(root, walk, e)
  {
    AfterLinksAdmitted(root, walk, disk, includeLinks);
    var all := AfterLinks(root, walk, disk, includeLinks).games;
    forall e | e in SortBy(all, NameKey) && !e.isShortcut ensures AdmittedGame(root, walk, e) {
      InSorted(all, e);
    }
  }

  /** The entry the group pass makes for executable `e.path`: the path is
      `_best_exe_for_group`'s choice among the unique paths of the group
      its path belongs to, and the entry is named after that group's folder,
      or after the executable's stem for the root group. */
  predicate ChosenGame(root: Path, members: map<Key, seq<Path>>, sizes: map<Path, nat>, e: Entry)
  {
    var k := KeyOfPath(root, e.path);
    k in members
    && Chosen(members, k, sizes) == Some(e.path)
    && e.name == (if k.Some? then k.value else Stem(Basename(e.path)))
  }

  /** `e` is the game of group `k`: its choice, named after the folder `k`
      names, or after the executable's stem for the root group. */
  predicate GroupChoice(members: map<Key, seq<Path>>, sizes: map<Path, nat>, k: Key, e: Entry)
  {
    k in members && e.path in members[k] && Chosen(members, k, sizes) == Some(e.path)
    && e.name == (if k.Some? then k.value else Stem(Basename(e.path)))
  }

  predicate GroupChoices(members: map<Key, seq<Path>>, sizes: map<Path, nat>, games: seq<Entry>)
  {
    forall e :: e in games && !e.isShortcut ==> exists k :: k in members && GroupChoice(members, sizes, k, e)
  }

  lemma EmitGroupChosen(st: ScanState, members: map<Key, seq<Path>>, sizes: map<Path, nat>, k: Key)
    requires forall k :: k in members && k.Some? ==> k.value != []
    requires GroupChoices(members, sizes, st.games)
    ensures GroupChoices(members, sizes, EmitGroup(st, members, sizes, k).games)
  {
    var c := Chosen(members, k, sizes);
    if c.Some? && c.value != [] {
      NewGroupChoice(members, sizes, k, c.value);
      GroupChoicesAppend(members, sizes, st.games, k, GroupGame(k, c.value));
    }
  }

  lemma GroupChoicesAppend(members: map<Key, seq<Path>>, sizes: map<Path, nat>, games: seq<Entry>, k: Key, x: Entry)
    requires GroupChoices(members, sizes, games) && k in members && GroupChoice(members, sizes, k, x)
    ensures GroupChoices(members, sizes, games + [x])
  {
  }

  lemma NewGroupChoice(members: map<Key, seq<Path>>, sizes: map<Path, nat>, k: Key, c: Path)
    requires forall k :: k in members && k.Some? ==> k.value != []
    requires Chosen(members, k, sizes) == Some(c)
    ensures k in members && GroupChoice(members, sizes, k, GroupGame(k, c))
  {
    ChosenInGroup(members, k, sizes);
  }

  lemma {:induction false} EmittedChosen(st: ScanState, members: map<Key, seq<Path>>, sizes: map<Path, nat>, order: seq<Key>)
    requires forall k :: k in members && k.Some? ==> k.value != []
    requires GroupChoices(members, sizes, st.games)
    ensures GroupChoices(members, sizes, EmitGroups(st, members, sizes, order).games)
  {
    if order != [] {
      EmittedChosen(st, members, sizes, order[..|order| - 1]);
      EmitGroupChosen(EmitGroups(st, members, sizes, order[..|order| - 1]), members, sizes, order[|order| - 1]);
    }
  }

  /** Under a well-formed walk, a folder group's key is a nonempty name. */
  lemma GroupKeysNamed(root: Path, walk: seq<WalkDir>)
    requires WellFormedWalk(walk)
    ensures forall k :: k in Group(Events(root, walk)).members && k.Some? ==> k.value != []
  {
    var members := Group(Events(root, walk)).members;
    GroupMembersKeyed(root, walk);
    GroupKeysDistinct(Events(root, walk));
    forall k | k in members && k.Some? ensures k.value != [] {
      assert members[k] != [];
      var p := members[k][0];
      assert p in members[k];
      assert KeyOfPath(root, p) == k && (k.Some? ==> k.value != []);
    }
  }

  lemma GroupChoiceKeyed(root: Path, walk: seq<WalkDir>, sizes: map<Path, nat>, e: Entry)
    requires WellFormedWalk(walk)
    requires exists k :: k in Group(Events(root, walk)).members && GroupChoice(Group(Events(root, walk)).members, sizes, k, e)
    ensures ChosenGame(root, Group(Events(root, walk)).members, sizes, e)
  {
    var members := Group(Events(root, walk)).members;
    var k :| k in members && GroupChoice(members, sizes, k, e);
    GroupMemberKeyed(root, walk, k, e.path);
  }

  lemma GroupMemberKeyed(root: Path, walk: seq<WalkDir>, k: Key, p: Path)
    requires WellFormedWalk(walk)
    requires k in Group(Events(root, walk)).members && p in Group(Events(root, walk)).members[k]
    ensures KeyOfPath(root, p) == k
  {
    EventsKeyed(root, walk);
    KeyedMember(root, Events(root, walk), k, p);
  }

  /** Under a well-formed walk, every game that is not a shortcut is its
      group's choice, named after the group's folder, or after its stem when
      it lies in the root. */
  lemma ScanGamesChosen(root: Path, walk: seq<WalkDir>, disk: Disk, includeLinks: bool)
    requires WellFormedWalk(walk)
    ensures forall e :: e in ScanSpec(root, walk, disk, includeLinks).0 && !e.isShortcut ==>
      ChosenGame(root, Group(Events(root, walk)).members, disk.sizes, e)
  {
    var g := Group(Events(root, walk));
    GroupMembersKeyed(root, walk);
    GroupKeysNamed(root, walk);
    EmittedChosen(ScanState([], g.skipped, {}), g.members, disk.sizes, g.order);
    var st := AfterGroups(root, walk, disk);
    var all := AfterLinks(root, walk, disk, includeLinks).games;
    if includeLinks && root in disk.listings {
      LinkPassOnlyShortcuts(st, root, disk, disk.listings[root]);
      forall e | e in all && !e.isShortcut ensures e in st.games {
        ShortcutsAfter(st, all, e);
      }
    }
    forall e | e in SortBy(all, NameKey) && !e.isShortcut ensures ChosenGame(root, g.members, disk.sizes, e) {
      InSorted(all, e);
      GroupChoiceKeyed(root, walk, disk.sizes, e);
    }
  }

  lemma FolderExclusionOfPrefix(root: Path, dir: Path)
    requires ExcludedByFolder(root) && StartsWith(dir, root)
    ensures ExcludedByFolder(dir)
  {
    assert dir == [] + root + dir[|root|..];
    FolderExclusionInContext([], root, dir[|root|..]);
  }

  lemma NothingAdmittedUnderExcludedRoot(root: Path, walk: seq<WalkDir>, p: Path)
    requires ExcludedByFolder(root)
    ensures !Admitted(root, walk, p)
  {
    if Admitted(root, walk, p) {
      var i, k :| 0 <= i < |walk| && 0 <= k < |walk[i].files| && AdmittedFile(DirPath(root, walk[i].parts), walk[i].files[k], p);
      DirPathStartsWithRoot(root, walk[i].parts);
      FolderExclusionOfPrefix(root, DirPath(root, walk[i].parts));
    }
  }

  /** An excluded root folder excludes everything below it, so only
      shortcuts remain. */
  lemma ExcludedRootLeavesShortcuts(root: Path, walk: seq<WalkDir>, disk: Disk, includeLinks: bool)
    requires ExcludedByFolder(root)
    ensures forall e :: e in ScanSpec(root, walk, disk, includeLinks).0 ==> e.isShortcut
  {
    ScanGamesAdmitted(root, walk, disk, includeLinks);
    forall e | e in ScanSpec(root, walk, disk, includeLinks).0 ensures e.isShortcut {
      if !e.isShortcut {
        NothingAdmittedUnderExcludedRoot(root, walk, e.path);
      }
    }
  }

  // ---------------------------------------------------------------------
  // Shortcuts in the root.

  /** Every path in `seen_exes` is the target of an emitted game. */
  predicate SeenExact(st: ScanState)
  {
    forall p :: p in st.seen ==> exists e :: e in st.games && e.resolved == Some(p)
  }

  /** `st` is `before` with more games, skips and seen paths added. */
  predicate Extends(before: ScanState, st: ScanState)
  {
    |before.games| <= |st.games| && st.games[..|before.games|] == before.games
    && |before.skipped| <= |st.skipped| && st.skipped[..|before.skipped|] == before.skipped
    && before.seen <= st.seen
  }

  lemma ExtendsTransitive(a: ScanState, b: ScanState, c: ScanState)
    requires Extends(a, b) && Extends(b, c)
    ensures Extends(a, c)
  {
    assert c.games[..|a.games|] == c.games[..|b.games|][..|a.games|];
    assert c.skipped[..|a.skipped|] == c.skipped[..|b.skipped|][..|a.skipped|];
  }

  lemma ExtendsKeeps(a: ScanState, b: ScanState)
    requires Extends(a, b)
    ensures forall e :: e in a.games ==> e in b.games
    ensures forall k :: k in a.skipped ==> k in b.skipped
  {
    forall e | e in a.games ensures e in b.games {
      var i :| 0 <= i < |a.games| && a.games[i] == e;
      assert b.games[..|a.games|][i] == e;
    }
    forall k | k in a.skipped ensures k in b.skipped {
      var i :| 0 <= i < |a.skipped| && a.skipped[i] == k;
      assert b.skipped[..|a.skipped|][i] == k;
    }
  }

  lemma AddEntrySeenExact(st: ScanState, e: Entry)
    requires SeenExact(st)
    ensures var r := st.(games := st.games + [e], seen := if e.resolved.Some? then st.seen + {e.resolved.value} else st.seen);
      SeenExact(r) && Extends(st, r)
  {
    var r := st.(games := st.games + [e], seen := if e.resolved.Some? then st.seen + {e.resolved.value} else st.seen);
    forall p | p in r.seen ensures exists x :: x in r.games && x.resolved == Some(p) {
      if p in st.seen {
        var x :| x in st.games && x.resolved == Some(p);
        assert x in r.games;
      } else {
        assert e in r.games;
      }
    }
  }

  lemma EmitGroupSeenExact(st: ScanState, members: map<Key, seq<Path>>, sizes: map<Path, nat>, k: Key)
    requires SeenExact(st)
    ensures SeenExact(EmitGroup(st, members, sizes, k)) && Extends(st, EmitGroup(st, members, sizes, k))
  {
    var c := Chosen(members, k, sizes);
    if c.Some? && c.value != [] {
      AddEntrySeenExact(st, GroupGame(k, c.value));
    }
  }

  lemma {:induction false} EmitGroupsSeenExact(st: ScanState, members: map<Key, seq<Path>>, sizes: map<Path, nat>, order: seq<Key>)
    requires SeenExact(st)
    ensures SeenExact(EmitGroups(st, members, sizes, order))
  {
    if order != [] {
      EmitGroupsSeenExact(st, members, sizes, order[..|order| - 1]);
      EmitGroupSeenExact(EmitGroups(st, members, sizes, order[..|order| - 1]), members, sizes, order[|order| - 1]);
    }
  }

  /** The entry the shortcut loop adds for the root entry `f`: a shortcut
      at `root\f`. When it resolves to an executable, the entry resolves to
      that target, lies in the target's folder and is named by `LinkName`.
      Otherwise it resolves to nothing, is named after the shortcut, and lies
      in the root's folder of that name when there is one, else in the root. */
  predicate LinkEntryFor(root: Path, disk: Disk, f: string, e: Entry)
  {
    var lnk := Join(root, f);
    e.isShortcut && e.path == lnk
    && (ResolvesToExe(disk, lnk) ==>
          e.resolved == Some(disk.links[lnk]) && e.name == LinkName(root, disk.links[lnk])
          && e.folder == Dirname(disk.links[lnk]))
    && (!ResolvesToExe(disk, lnk) ==>
          e.resolved == None && e.name == Stem(f)
          && e.folder == (if Join(root, Stem(f)) in disk.dirs then Join(root, Stem(f)) else root))
  }

  /** What became of the root's `.lnk` entry `f` in `games` and `skipped`:
      an unresolved shortcut is an entry; one whose target the name filter
      excludes is skipped as `lnk_points_to_excluded_exe`; any other is
      represented by an entry resolving to its target. */
  predicate LinkOutcome(games: seq<Entry>, skipped: seq<Skip>, root: Path, disk: Disk, f: string)
  {
    var lnk := Join(root, f);
    if !ResolvesToExe(disk, lnk) then exists e :: e in games && LinkEntryFor(root, disk, f, e)
    else if ExcludedByName(Basename(disk.links[lnk])) then Skip(lnk, LinkToExcludedExe) in skipped
    else exists e :: e in games && e.resolved == Some(disk.links[lnk])
  }

  /** `e` is the entry of a `.lnk` name of `names`. */
  predicate FromLink(root: Path, disk: Disk, names: seq<string>, e: Entry)
  {
    exists f :: f in names && IsLink(f) && LinkEntryFor(root, disk, f, e)
  }

  /** Every shortcut game is the entry of a `.lnk` name of `names`. */
  predicate ShortcutsFrom(games: seq<Entry>, root: Path, disk: Disk, names: seq<string>)
  {
    forall e :: e in games && e.isShortcut ==> FromLink(root, disk, names, e)
  }

  /** No game resolves to an executable the name filter excludes. */
  predicate TargetsAllowed(games: seq<Entry>)
  {
    forall e :: e in games && e.resolved.Some? ==> !ExcludedByName(Basename(e.resolved.value))
  }

  predicate LinksSound(games: seq<Entry>, root: Path, disk: Disk, names: seq<string>)
  {
    ShortcutsFrom(games, root, disk, names) && TargetsAllowed(games)
  }

  lemma LinkStepOutcome(st: ScanState, root: Path, disk: Disk, f: string)
    requires SeenExact(st) && IsLink(f)
    ensures LinkOutcome(LinkStep(st, root, disk, f).games, LinkStep(st, root, disk, f).skipped, root, disk, f)
  {
    var lnk := Join(root, f);
    var r := LinkStep(st, root, disk, f);
    if ResolvesToExe(disk, lnk) {
      var target := disk.links[lnk];
      if ExcludedByName(Basename(target)) {
        assert r.skipped[|st.skipped|] == Skip(lnk, LinkToExcludedExe);
      } else if target in st.seen {
        var e :| e in st.games && e.resolved == Some(target);
        assert e in r.games;
      } else {
        assert r.games[|st.games|].resolved == Some(target);
      }
    } else {
      var e := Entry(Stem(f), lnk, UnresolvedFolder(root, disk, f), true, None);
      assert LinkEntryFor(root, disk, f, e);
      assert r.games[|st.games|] == e;
    }
  }

  lemma LinkStepFacts(st: ScanState, root: Path, disk: Disk, f: string)
    requires SeenExact(st)
    ensures SeenExact(LinkStep(st, root, disk, f)) && Extends(st, LinkStep(st, root, disk, f))
    ensures IsLink(f) ==> LinkOutcome(LinkStep(st, root, disk, f).games, LinkStep(st, root, disk, f).skipped, root, disk, f)
  {
    var lnk := Join(root, f);
    var r := LinkStep(st, root, disk, f);
    if IsLink(f) {
      LinkStepOutcome(st, root, disk, f);
      if ResolvesToExe(disk, lnk) {
        var target := disk.links[lnk];
        if ExcludedByName(Basename(target)) {
          assert r.skipped[..|st.skipped|] == st.skipped;
        } else if target !in st.seen {
          AddEntrySeenExact(st, Entry(LinkName(root, target), lnk, Dirname(target), true, Some(target)));
        }
      } else {
        AddEntrySeenExact(st, Entry(Stem(f), lnk, UnresolvedFolder(root, disk, f), true, None));
      }
    }
  }

  lemma LinkOutcomePersists(a: ScanState, b: ScanState, root: Path, disk: Disk, f: string)
    requires Extends(a, b) && LinkOutcome(a.games, a.skipped, root, disk, f)
    ensures LinkOutcome(b.games, b.skipped, root, disk, f)
  {
    ExtendsKeeps(a, b);
  }

  /** After the shortcut loop over `names`, every `.lnk` name of `names`
      has its outcome. */
  lemma {:induction false} LinkPassAccounts(st: ScanState, root: Path, disk: Disk, names: seq<string>)
    requires SeenExact(st)
    ensures SeenExact(LinkPass(st, root, disk, names)) && Extends(st, LinkPass(st, root, disk, names))
    ensures forall f :: f in names && IsLink(f) ==>
      LinkOutcome(LinkPass(st, root, disk, names).games, LinkPass(st, root, disk, names).skipped, root, disk, f)
  {
    if names != [] {
      var init := names[..|names| - 1];
      LinkPassAccounts(st, root, disk, init);
      var mid, r := LinkPass(st, root, disk, init), LinkPass(st, root, disk, names);
      LinkStepFacts(mid, root, disk, names[|names| - 1]);
      ExtendsTransitive(st, mid, r);
      forall f | f in names && IsLink(f) ensures LinkOutcome(r.games, r.skipped, root, disk, f) {
        if f in init {
          LinkOutcomePersists(mid, r, root, disk, f);
        }
      }
    }
  }

  lemma LinksSoundAppend(games: seq<Entry>, root: Path, disk: Disk, names: seq<string>, f: string, e: Entry)
    requires LinksSound(games, root, disk, names) && f in names && IsLink(f) && LinkEntryFor(root, disk, f, e)
    requires e.resolved.Some? ==> !ExcludedByName(Basename(e.resolved.value))
    ensures LinksSound(games + [e], root, disk, names)
  {
    assert FromLink(root, disk, names, e);
    ShortcutsFromAppend(games, root, disk, names, e);
    TargetsAllowedAppend(games, e);
  }

  lemma ShortcutsFromAppend(games: seq<Entry>, root: Path, disk: Disk, names: seq<string>, e: Entry)
    requires ShortcutsFrom(games, root, disk, names) && FromLink(root, disk, names, e)
    ensures ShortcutsFrom(games + [e], root, disk, names)
  {
    forall x | x in games + [e] && x.isShortcut ensures FromLink(root, disk, names, x) {
      InAppend(games, e, x);
    }
  }

  lemma InAppend<T>(s: seq<T>, y: T, x: T)
    requires x in s + [y]
    ensures x in s || x == y
  {
  }

  lemma TargetsAllowedAppend(games: seq<Entry>, e: Entry)
    requires TargetsAllowed(games) && (e.resolved.Some? ==> !ExcludedByName(Basename(e.resolved.value)))
    ensures TargetsAllowed(games + [e])
  {
    forall x | x in games + [e] && x.resolved.Some? ensures !ExcludedByName(Basename(x.resolved.value)) {
      if x != e {
        assert x in games;
      }
    }
  }

  lemma LinkStepSound(st: ScanState, root: Path, disk: Disk, names: seq<string>, f: string)
    requires f in names && LinksSound(st.games, root, disk, names)
    ensures LinksSound(LinkStep(st, root, disk, f).games, root, disk, names)
  {
    var lnk := Join(root, f);
    if IsLink(f) {
      if ResolvesToExe(disk, lnk) {
        var target := disk.links[lnk];
        if !ExcludedByName(Basename(target)) && target !in st.seen {
          LinksSoundAppend(st.games, root, disk, names, f, Entry(LinkName(root, target), lnk, Dirname(target), true, Some(target)));
        }
      } else {
        LinksSoundAppend(st.games, root, disk, names, f, Entry(Stem(f), lnk, UnresolvedFolder(root, disk, f), true, None));
      }
    }
  }

  lemma {:induction false} LinkPassSound(st: ScanState, root: Path, disk: Disk, names: seq<string>, all: seq<string>)
    requires (forall f :: f in names ==> f in all) && LinksSound(st.games, root, disk, all)
    ensures LinksSound(LinkPass(st, root, disk, names).games, root, disk, all)
  {
    if names != [] {
      var init := names[..|names| - 1];
      assert forall f :: f in init ==> f in names;
      LinkPassSound(st, root, disk, init, all);
      LinkStepSound(LinkPass(st, root, disk, init), root, disk, all, names[|names| - 1]);
    }
  }

  /** Under a well-formed walk, the executable an admitted path names passes
      the name filter. */
  lemma AdmittedNameNotExcluded(root: Path, walk: seq<WalkDir>, p: Path)
    requires WellFormedWalk(walk) && Admitted(root, walk, p)
    ensures !ExcludedByName(Basename(p))
  {
    var i, k :| 0 <= i < |walk| && 0 <= k < |walk[i].files| && AdmittedFile(DirPath(root, walk[i].parts), walk[i].files[k], p);
    assert WellFormedDir(walk[i]);
    BasenameOfJoin(DirPath(root, walk[i].parts), walk[i].files[k]);
  }

  lemma AfterGroupsSound(root: Path, walk: seq<WalkDir>, disk: Disk, names: seq<string>)
    requires WellFormedWalk(walk)
    ensures LinksSound(AfterGroups(root, walk, disk).games, root, disk, names)
  {
    AfterGroupsAdmitted(root, walk, disk);
    forall e | e in AfterGroups(root, walk, disk).games && e.resolved.Some?
      ensures !ExcludedByName(Basename(e.resolved.value))
    {
      AdmittedNameNotExcluded(root, walk, e.path);
    }
  }

  lemma InSortedBack(games: seq<Entry>, e: Entry)
    requires e in games
    ensures e in SortBy(games, NameKey)
  {
    SortByPermutes(games, NameKey);
    assert e in multiset(games);
  }

  /** Every `.lnk` entry of the root has its outcome in the result: an
      unresolved shortcut is listed as such, one whose target the name filter
      excludes is in the debug list, and any other is represented by a game
      resolving to its target. */
  lemma ShortcutsAccounted(root: Path, walk: seq<WalkDir>, disk: Disk)
    requires root in disk.listings
    ensures var (games, skipped) := ScanSpec(root, walk, disk, true);
      forall f :: f in disk.listings[root] && IsLink(f) ==> LinkOutcome(games, skipped, root, disk, f)
  {
    var g := Group(Events(root, walk));
    EmitGroupsSeenExact(ScanState([], g.skipped, {}), g.members, disk.sizes, g.order);
    var st := AfterGroups(root, walk, disk);
    var names := disk.listings[root];
    LinkPassAccounts(st, root, disk, names);
    var r := LinkPass(st, root, disk, names);
    forall f | f in names && IsLink(f) ensures LinkOutcome(SortBy(r.games, NameKey), r.skipped, root, disk, f) {
      SortedOutcome(r, root, disk, f);
    }
  }

  lemma SortedOutcome(r: ScanState, root: Path, disk: Disk, f: string)
    requires LinkOutcome(r.games, r.skipped, root, disk, f)
    ensures LinkOutcome(SortBy(r.games, NameKey), r.skipped, root, disk, f)
  {
    var lnk := Join(root, f);
    if !ResolvesToExe(disk, lnk) {
      var e :| e in r.games && LinkEntryFor(root, disk, f, e);
      InSortedBack(r.games, e);
    } else if !ExcludedByName(Basename(disk.links[lnk])) {
      var e :| e in r.games && e.resolved == Some(disk.links[lnk]);
      InSortedBack(r.games, e);
    }
  }

  /** Under a well-formed walk, no game of the result resolves to an
      executable the name filter excludes, and every shortcut game is the
      entry of a `.lnk` name in the root, listed only when shortcuts are
      asked for. */
  lemma ScanLinksSound(root: Path, walk: seq<WalkDir>, disk: Disk, includeLinks: bool)
    requires WellFormedWalk(walk)
    ensures var games := ScanSpec(root, walk, disk, includeLinks).0;
      (forall e :: e in games && e.resolved.Some? ==> !ExcludedByName(Basename(e.resolved.value)))
      && (forall e :: e in games && e.isShortcut ==>
            includeLinks && root in disk.listings
            && exists f :: f in disk.listings[root] && IsLink(f) && LinkEntryFor(root, disk, f, e))
  {
    var st := AfterGroups(root, walk, disk);
    var all := AfterLinks(root, walk, disk, includeLinks).games;
    if includeLinks && root in disk.listings {
      var names := disk.listings[root];
      AfterGroupsSound(root, walk, disk, names);
      LinkPassSound(st, root, disk, names, names);
    } else {
      AfterGroupsSound(root, walk, disk, []);
    }
    forall e | e in SortBy(all, NameKey) ensures e in all {
      InSorted(all, e);
    }
  }

  /** A shortcut whose target the name filter excludes never shows up as a
      shortcut game. */
  lemma ExcludedTargetNotListed(root: Path, walk: seq<WalkDir>, disk: Disk, includeLinks: bool, f: string)
    requires WellFormedWalk(walk)
    requires ResolvesToExe(disk, Join(root, f)) && ExcludedByName(Basename(disk.links[Join(root, f)]))
    ensures forall e :: e in ScanSpec(root, walk, disk, includeLinks).0 && e.isShortcut ==> e.path != Join(root, f)
  {
    ScanLinksSound(root, walk, disk, includeLinks);
    forall e | e in ScanSpec(root, walk, disk, includeLinks).0 && e.isShortcut ensures e.path != Join(root, f) {
      var f' :| f' in disk.listings[root] && IsLink(f') && LinkEntryFor(root, disk, f', e);
    }
  }

  // ---------------------------------------------------------------------
  // Counting and ordering.

  lemma AdmittedNonempty(root: Path, walk: seq<WalkDir>, p: Path)
    requires Admitted(root, walk, p)
    ensures p != []
  {
    var i, k :| 0 <= i < |walk| && 0 <= k < |walk[i].files| && AdmittedFile(DirPath(root, walk[i].parts), walk[i].files[k], p);
    var f := walk[i].files[k];
    assert |Lower(f)| >= 4;
  }

  /** The group pass yields exactly one game per top-level folder (and one
      for the root) holding an admitted executable. */
  lemma GamesPerGroup(root: Path, walk: seq<WalkDir>, disk: Disk)
    ensures |AfterGroups(root, walk, disk).games| == |KeysInOrder(Events(root, walk))|
  {
    var evs := Events(root, walk);
    var g := Group(evs);
    GroupPartitions(evs);
    KeysInOrderFacts(evs);
    assert walk[..|walk|] == walk;
    EventsAdmitted(root, walk, |walk|);
    forall k | k in g.order ensures MembersOf(g.members, k) != [] && [] !in MembersOf(g.members, k) {
      PathsWithKeyAdmitted(root, walk, evs, k);
      if [] in MembersOf(g.members, k) {
        AdmittedNonempty(root, walk, []);
      }
    }
    OneGamePerGroup(ScanState([], g.skipped, {}), g.members, disk.sizes, g.order);
  }

  /** The result is ordered by lower-cased name, holds exactly the games of
      both passes, and keeps the order of games whose names compare equal. */
  lemma ScanResultOrdered(root: Path, walk: seq<WalkDir>, disk: Disk, includeLinks: bool, k: string)
    ensures SortedBy(ScanSpec(root, walk, disk, includeLinks).0, NameKey)
    ensures multiset(ScanSpec(root, walk, disk, includeLinks).0) == multiset(AfterLinks(root, walk, disk, includeLinks).games)
    ensures WithKey(ScanSpec(root, walk, disk, includeLinks).0, NameKey, k) == WithKey(AfterLinks(root, walk, disk, includeLinks).games, NameKey, k)
  {
    var all := AfterLinks(root, walk, disk, includeLinks).games;
    SortBySorted(all, NameKey);
    SortByPermutes(all, NameKey);
    SortByStable(all, NameKey, k);
  }

  // ---------------------------------------------------------------------
  // Names of resolved shortcuts

  /** A shortcut to an executable below the root is named after the
      executable's top-level folder. */
  lemma LinkNameBelowRoot(root: Path, parts: seq<string>, f: string)
    requires parts != [] && PlainNames(parts) && parts[0] != "." && parts[0] != ".."
    requires f != [] && Sep !in f
    ensures LinkName(root, Join(DirPath(root, parts), f)) == parts[0]
  {
    var d := DirPath(root, parts);
    LastCharNotSep(d, parts[|parts| - 1]);
    DirnameOfJoin(d, f);
    RelTopOfDirPath(root, parts);
  }

  /** A shortcut on the same drive to an executable outside the root, here
      `D:\\Apps\\game.exe` under the root `D:\\Games`, gets the display name
      ".." as written; the corrected name is the executable's stem. */
  lemma OutsideTargetNamedDots(root: Path, dir: Path, target: Path)
    requires root == "D:\\Games" && dir == "D:\\Apps" && target == Join(dir, "game.exe")
    ensures LinkNameAsWritten(root, target) == ".."
    ensures LinkName(root, target) == "game"
  {
    BasenameOfJoin(dir, "game.exe");
    DirnameOfJoin(dir, "game.exe");
    AppsOutsideGames(root, dir);
    GameStem();
    NamesOutsideRoot(root, target);
  }

  lemma NamesOutsideRoot(root: Path, target: Path)
    requires RelTop(root, Dirname(target)) == ".."
    ensures LinkNameAsWritten(root, target) == ".."
    ensures LinkName(root, target) == Stem(Basename(target))
  {
  }

  lemma AppsOutsideGames(root: Path, dir: Path)
    requires root == "D:\\Games" && dir == "D:\\Apps"
    ensures RelTop(root, dir) == ".."
  {
    assert dir[3] != DirPrefix(root)[3];
  }

  lemma GameStem()
    ensures Stem("game.exe") == "game"
  {
    assert "game.exe"[..7] == "game.ex" && "game.ex"[..6] == "game.e" && "game.e"[..5] == "game.";
    assert LastIndexOf("game.exe", '.') == 4;
    assert "game.exe"[..4] == "game";
    assert !AllDots("game") by { assert "game"[0] != '.'; }
  }
}
