/**
  `buscar_juegos` (core/scanner.py): walks a library folder, groups the
  admitted executables by the top-level folder they live under, picks one
  executable per group, adds the shortcuts found in the root folder and
  returns the entries sorted by display name.

  The walk is an input: a sequence of `WalkDir`, each naming a directory by
  its components below the root, in the order `os.walk` reports them. The
  filesystem (`isfile`, `isdir`, `listdir`, `getsize`, shortcut targets) is
  a `Disk`. The specification is a chain of folds (`Events`, `Group`,
  `EmitGroups`, `LinkPass`, `SortBy`); `Scan` computes it with loops.
*/
module Scanner {
  import opened Wrappers
  import opened Text
  import opened Paths
  import opened Exclusion
  import opened Selection
  import opened Ordering

  /** One directory of the walk: its components below the root ([] for the
      root) and the names of the files in it. */
  datatype WalkDir = WalkDir(parts: seq<string>, files: seq<string>)

  /** The reasons the scanner records in its debug list. */
  datatype SkipReason = ByName | ByFolder | LinkToExcludedExe
  {
    function Tag(): string
    {
      match this
      case ByName => "excluded_by_name"
      case ByFolder => "excluded_by_folder"
      case LinkToExcludedExe => "lnk_points_to_excluded_exe"
    }
  }

  datatype Skip = Skip(path: Path, reason: SkipReason)

  /** A game: `nombre`, `ruta`, `folder`, `is_shortcut`, `resolved_path`. */
  datatype Entry = Entry(name: string, path: Path, folder: Path, isShortcut: bool, resolved: Option<Path>)

  /** A group key: `None` for the root folder, else a top-level folder name. */
  type Key = Option<string>

  /** What the walk makes of one file: a candidate for a group, or a skip. */
  datatype Found = Candidate(key: Key, path: Path) | Excluded(skip: Skip)

  /** The `grouped` dictionary, with its keys in insertion order, and the
      `skipped` list. */
  datatype Grouping = Grouping(order: seq<Key>, members: map<Key, seq<Path>>, skipped: seq<Skip>)

  /** Games emitted so far, the debug list, and `seen_exes`. */
  datatype ScanState = ScanState(games: seq<Entry>, skipped: seq<Skip>, seen: set<Path>)

  predicate IsExe(name: string)
  {
    EndsWith(Lower(name), ".exe")
  }

  predicate IsLink(name: string)
  {
    EndsWith(Lower(name), ".lnk")
  }

  /** The group key of a walked directory: `None` when `relpath` gives ".",
      else the first component of the relative path. */
  function KeyOfDir(root: Path, dir: Path): (r: Key)
    ensures dir == root ==> r == None
    ensures r.Some? ==> Sep !in r.value
  {
    var t := RelTop(root, dir);
    if t == "." then None else Some(t)
  }

  /** The walk's verdict on file `f` in directory `dir`: nothing for a
      non-executable, a skip when its name or its directory is excluded (the
      name is checked first), otherwise a candidate for group `key`. */
  function FileEvents(dir: Path, key: Key, f: string): (r: seq<Found>)
    ensures r == [] <==> !IsExe(f)
    ensures IsExe(f) && ExcludedByName(f) ==> r == [Excluded(Skip(Join(dir, f), ByName))]
    ensures IsExe(f) && !ExcludedByName(f) && ExcludedByFolder(dir) ==> r == [Excluded(Skip(Join(dir, f), ByFolder))]
    ensures IsExe(f) && !ExcludedByName(f) && !ExcludedByFolder(dir) ==> r == [Candidate(key, Join(dir, f))]
  {
    if !IsExe(f) then []
    else
      var p := Join(dir, f);
      if ExcludedByName(f) then [Excluded(Skip(p, ByName))]
      else if ExcludedByFolder(dir) then [Excluded(Skip(p, ByFolder))]
      else [Candidate(key, p)]
  }

  function DirEvents(dir: Path, key: Key, files: seq<string>): seq<Found>
  {
    if files == [] then []
    else DirEvents(dir, key, files[..|files| - 1]) + FileEvents(dir, key, files[|files| - 1])
  }

  function WalkDirEvents(root: Path, d: WalkDir): seq<Found>
  {
    var dir := DirPath(root, d.parts);
    DirEvents(dir, KeyOfDir(root, dir), d.files)
  }

  /** Everything the walk finds, in walk order. */
  function Events(root: Path, walk: seq<WalkDir>): seq<Found>
  {
    if walk == [] then []
    else Events(root, walk[..|walk| - 1]) + WalkDirEvents(root, walk[|walk| - 1])
  }

  /** `grouped.setdefault(key, []).append(p)`. */
  function AddToGroup(g: Grouping, key: Key, p: Path): Grouping
  {
    if key in g.members then g.(members := g.members[key := g.members[key] + [p]])
    else g.(order := g.order + [key], members := g.members[key := [p]])
  }

  function Record(g: Grouping, e: Found): Grouping
  {
    match e
    case Candidate(key, p) => AddToGroup(g, key, p)
    case Excluded(s) => g.(skipped := g.skipped + [s])
  }

  /** The grouping after the events `evs`, starting from `g`. */
  function GroupFrom(g: Grouping, evs: seq<Found>): Grouping
  {
    if evs == [] then g
    else Record(GroupFrom(g, evs[..|evs| - 1]), evs[|evs| - 1])
  }

  const NoGroups := Grouping([], map[], [])

  /** The grouping after the events `evs`. */
  function Group(evs: seq<Found>): Grouping
  {
    GroupFrom(NoGroups, evs)
  }

  /** `unique_list`: the paths of `ps` without repeats, each at its first
      occurrence. */
  function Dedup(ps: seq<Path>): (r: seq<Path>)
    ensures forall x :: x in r <==> x in ps
    ensures forall i, j :: 0 <= i < j < |r| ==> r[i] != r[j]
  {
    if ps == [] then []
    else
      var d := Dedup(ps[..|ps| - 1]);
      if ps[|ps| - 1] in d then d else d + [ps[|ps| - 1]]
  }

  /** The index of the first occurrence of `x` in `ps`. */
  function FirstIndex(ps: seq<Path>, x: Path): (r: nat)
    requires x in ps
    ensures r < |ps| && ps[r] == x
    ensures forall j :: 0 <= j < r ==> ps[j] != x
  {
    if ps[0] == x then 0 else 1 + FirstIndex(ps[1..], x)
  }

  lemma FirstIndexOfPrefix(init: seq<Path>, x: Path, y: Path)
    requires y in init
    ensures FirstIndex(init + [x], y) == FirstIndex(init, y)
  {
    var ps := init + [x];
    var a, b := FirstIndex(ps, y), FirstIndex(init, y);
    assert ps[b] == y;
  }

  /** `unique_list` keeps the order in which the paths first occur. */
  lemma {:induction false} DedupKeepsFirstOrder(ps: seq<Path>)
    ensures forall i, j :: 0 <= i < j < |Dedup(ps)| ==> FirstIndex(ps, Dedup(ps)[i]) < FirstIndex(ps, Dedup(ps)[j])
  {
    if ps != [] {
      var init, x := ps[..|ps| - 1], ps[|ps| - 1];
      assert ps == init + [x];
      DedupKeepsFirstOrder(init);
      var d := Dedup(init);
      forall y | y in d ensures FirstIndex(ps, y) == FirstIndex(init, y) {
        FirstIndexOfPrefix(init, x, y);
      }
      if x !in d {
        var r := d + [x];
        assert Dedup(ps) == r;
        assert FirstIndex(ps, x) == |init|;
        forall i, j | 0 <= i < j < |r| ensures FirstIndex(ps, r[i]) < FirstIndex(ps, r[j]) {
          assert r[i] == d[i] && r[i] in d;
          if j < |d| {
            assert r[j] == d[j];
          }
        }
      } else {
        assert Dedup(ps) == d;
      }
    }
  }

  /** A list without repeats is its own `unique_list`. */
  lemma {:induction false} DedupOfDistinct(ps: seq<Path>)
    requires forall i, j :: 0 <= i < j < |ps| ==> ps[i] != ps[j]
    ensures Dedup(ps) == ps
  {
    if ps != [] {
      var init := ps[..|ps| - 1];
      DedupOfDistinct(init);
      assert ps == init + [ps[|ps| - 1]];
    }
  }

  function MembersOf(members: map<Key, seq<Path>>, key: Key): seq<Path>
  {
    if key in members then members[key] else []
  }

  /** `top or ""`. */
  function FolderNameOf(key: Key): string
  {
    if key.Some? then key.value else ""
  }

  /** The display name of a group's game: the folder when it has a
      (nonempty) name, else the chosen executable's stem. */
  function DisplayName(key: Key, chosen: Path): string
  {
    if key.Some? && key.value != [] then key.value else Stem(Basename(chosen))
  }

  function Chosen(members: map<Key, seq<Path>>, key: Key, sizes: map<Path, nat>): Option<Path>
  {
    BestExe(Dedup(MembersOf(members, key)), FolderNameOf(key), sizes)
  }

  function GroupGame(key: Key, chosen: Path): Entry
  {
    Entry(DisplayName(key, chosen), chosen, Dirname(chosen), false, Some(chosen))
  }

  /** One round of `for top, exe_list in grouped.items()`: a group whose
      choice is missing or empty contributes nothing. */
  function EmitGroup(st: ScanState, members: map<Key, seq<Path>>, sizes: map<Path, nat>, key: Key): ScanState
  {
    var c := Chosen(members, key, sizes);
    if c.None? || c.value == [] then st
    else st.(games := st.games + [GroupGame(key, c.value)], seen := st.seen + {c.value})
  }

  function EmitGroups(st: ScanState, members: map<Key, seq<Path>>, sizes: map<Path, nat>, order: seq<Key>): ScanState
  {
    if order == [] then st
    else EmitGroup(EmitGroups(st, members, sizes, order[..|order| - 1]), members, sizes, order[|order| - 1])
  }

  /** What `_resolve_lnk` returns for a shortcut, if anything. */
  function Target(disk: Disk, lnk: Path): Option<Path>
  {
    if lnk in disk.links then Some(disk.links[lnk]) else None
  }

  /** A shortcut whose target is an existing `.exe` file. */
  predicate ResolvesToExe(disk: Disk, lnk: Path)
  {
    var t := Target(disk, lnk);
    t.Some? && t.value != [] && t.value in disk.files && IsExe(t.value)
  }

  /** The display name of a resolved shortcut as computed from the relative
      path of the target's folder: its first component when it is neither
      empty nor ".", else the target's stem. The relative path of a folder
      outside the root starts with "..", so such a target is named "..". */
  function LinkNameAsWritten(root: Path, target: Path): string
  {
    var top := RelTop(root, Dirname(target));
    if top != [] && top != "." then top else Stem(Basename(target))
  }

  /** The display name of a resolved shortcut used by this model: the
      target's top-level folder when the target lies below the root, else
      the target's stem. */
  function LinkName(root: Path, target: Path): (r: string)
    ensures !StartsWith(Dirname(target), DirPrefix(root)) ==> r == Stem(Basename(target))
  {
    var top := RelTop(root, Dirname(target));
    if top != [] && top != "." && top != ".." then top else Stem(Basename(target))
  }

  /** The folder recorded for a shortcut that does not resolve: the folder
      named like the shortcut next to it, if there is one, else the root. */
  function UnresolvedFolder(root: Path, disk: Disk, f: string): Path
  {
    var possible := Join(root, Stem(f));
    if possible in disk.dirs then possible else root
  }

  /** One round of the loop over the root's listing. */
  function LinkStep(st: ScanState, root: Path, disk: Disk, f: string): ScanState
  {
    if !IsLink(f) then st
    else
      var lnk := Join(root, f);
      if ResolvesToExe(disk, lnk) then
        var target := disk.links[lnk];
        if ExcludedByName(Basename(target)) then st.(skipped := st.skipped + [Skip(lnk, LinkToExcludedExe)])
        else if target in st.seen then st
        else st.(games := st.games + [Entry(LinkName(root, target), lnk, Dirname(target), true, Some(target))],
                 seen := st.seen + {target})
      else st.(games := st.games + [Entry(Stem(f), lnk, UnresolvedFolder(root, disk, f), true, None)])
  }

  function LinkPass(st: ScanState, root: Path, disk: Disk, names: seq<string>): ScanState
  {
    if names == [] then st
    else LinkStep(LinkPass(st, root, disk, names[..|names| - 1]), root, disk, names[|names| - 1])
  }

  /** The key `jogos.sort` orders by. */
  function NameKey(e: Entry): string
  {
    Lower(e.name)
  }

  /** The state after the group pass. */
  function AfterGroups(root: Path, walk: seq<WalkDir>, disk: Disk): ScanState
  {
    var g := Group(Events(root, walk));
    EmitGroups(ScanState([], g.skipped, {}), g.members, disk.sizes, g.order)
  }

  /** The state after the shortcut pass, which runs only when asked for and
      when the root can be listed. */
  function AfterLinks(root: Path, walk: seq<WalkDir>, disk: Disk, includeLinks: bool): ScanState
  {
    var st := AfterGroups(root, walk, disk);
    if includeLinks && root in disk.listings then LinkPass(st, root, disk, disk.listings[root]) else st
  }

  /** What `buscar_juegos` returns: the games sorted by lower-cased name,
      and the debug list. */
  function ScanSpec(root: Path, walk: seq<WalkDir>, disk: Disk, includeLinks: bool): (r: (seq<Entry>, seq<Skip>))
  {
    var st := AfterLinks(root, walk, disk, includeLinks);
    (SortBy(st.games, NameKey), st.skipped)
  }

  lemma {:induction false} GroupFromAppend(g: Grouping, a: seq<Found>, b: seq<Found>)
    ensures GroupFrom(g, a + b) == GroupFrom(GroupFrom(g, a), b)
    decreases |b|
  {
    if b == [] {
      assert a + b == a;
    } else {
      var b' := b[..|b| - 1];
      assert (a + b)[..|a + b| - 1] == a + b';
      GroupFromAppend(g, a, b');
    }
  }

  /** The body of the loop over one directory's files. */
  method AddFile(g: Grouping, dir: Path, key: Key, f: string) returns (r: Grouping)
    ensures r == GroupFrom(g, FileEvents(dir, key, f))
  {
    r := g;
    if IsExe(f) {
      var ruta := Join(dir, f);
      if ExcludedByName(f) {
        r := r.(skipped := r.skipped + [Skip(ruta, ByName)]);
      } else if ExcludedByFolder(dir) {
        r := r.(skipped := r.skipped + [Skip(ruta, ByFolder)]);
      } else if key in r.members {
        r := r.(members := r.members[key := r.members[key] + [ruta]]);
      } else {
        r := r.(order := r.order + [key], members := r.members[key := [ruta]]);
      }
    }
    assert FileEvents(dir, key, f) == [] || FileEvents(dir, key, f)[..0] == [];
  }

  /** The loop over one directory's files. */
  method AddDir(g0: Grouping, dir: Path, key: Key, files: seq<string>) returns (g: Grouping)
    ensures g == GroupFrom(g0, DirEvents(dir, key, files))
  {
    g := g0;
    var j := 0;
    while j < |files|
      invariant 0 <= j <= |files|
      invariant g == GroupFrom(g0, DirEvents(dir, key, files[..j]))
    {
      assert files[..j + 1][..j] == files[..j];
      GroupFromAppend(g0, DirEvents(dir, key, files[..j]), FileEvents(dir, key, files[j]));
      g := AddFile(g, dir, key, files[j]);
      j := j + 1;
    }
    assert files[..j] == files;
  }

  /** The walk loop of `buscar_juegos`: fills `grouped` and `skipped`. */
  method GroupFiles(root: Path, walk: seq<WalkDir>) returns (g: Grouping)
    ensures g == Group(Events(root, walk))
  {
    g := NoGroups;
    var i := 0;
    while i < |walk|
      invariant 0 <= i <= |walk|
      invariant g == Group(Events(root, walk[..i]))
    {
      var dirpath := DirPath(root, walk[i].parts);
      assert walk[..i + 1][..i] == walk[..i];
      GroupFromAppend(NoGroups, Events(root, walk[..i]), WalkDirEvents(root, walk[i]));
      g := AddDir(g, dirpath, KeyOfDir(root, dirpath), walk[i].files);
      i := i + 1;
    }
    assert walk[..i] == walk;
  }

  /** The loop that builds `unique_list`. */
  method Unique(exeList: seq<Path>) returns (unique: seq<Path>)
    ensures unique == Dedup(exeList)
  {
    unique := [];
    var k := 0;
    while k < |exeList|
      invariant 0 <= k <= |exeList|
      invariant unique == Dedup(exeList[..k])
    {
      assert exeList[..k + 1][..k] == exeList[..k];
      if exeList[k] !in unique {
        unique := unique + [exeList[k]];
      }
      k := k + 1;
    }
    assert exeList[..k] == exeList;
  }

  /** The body of the loop over `grouped.items()`. */
  method EmitOne(st: ScanState, members: map<Key, seq<Path>>, sizes: map<Path, nat>, top: Key) returns (r: ScanState)
    ensures r == EmitGroup(st, members, sizes, top)
  {
    r := st;
    var unique := Unique(MembersOf(members, top));
    var chosen := BestExe(unique, FolderNameOf(top), sizes);
    assert chosen == Chosen(members, top, sizes);
    if chosen.Some? && chosen.value != [] {
      r := r.(games := r.games + [GroupGame(top, chosen.value)], seen := r.seen + {chosen.value});
    }
  }

  /** The loop over `grouped.items()`. */
  method EmitAll(g: Grouping, sizes: map<Path, nat>) returns (st: ScanState)
    ensures st == EmitGroups(ScanState([], g.skipped, {}), g.members, sizes, g.order)
  {
    var start, members, order := ScanState([], g.skipped, {}), g.members, g.order;
    st := start;
    var n := 0;
    assert order[..n] == [];
    while n < |order|
      invariant 0 <= n <= |order|
      invariant st == EmitGroups(start, members, sizes, order[..n])
    {
      st := EmitNext(start, members, sizes, order, n, st);
      n := n + 1;
    }
    assert order[..n] == order;
  }

  /** One iteration of the loop over `grouped.items()`: the state after the
      first `n` groups becomes the state after the first `n + 1`. */
  method EmitNext(st0: ScanState, members: map<Key, seq<Path>>, sizes: map<Path, nat>, order: seq<Key>, n: nat, st: ScanState)
    returns (r: ScanState)
    requires n < |order| && st == EmitGroups(st0, members, sizes, order[..n])
    ensures r == EmitGroups(st0, members, sizes, order[..n + 1])
  {
    assert order[..n + 1][..n] == order[..n];
    r := EmitOne(st, members, sizes, order[n]);
  }

  /** The loop over the root's listing, from the state `st0`. */
  method AddLinks(st0: ScanState, root: Path, disk: Disk, names: seq<string>) returns (st: ScanState)
    ensures st == LinkPass(st0, root, disk, names)
  {
    var jogos, skips, seen := st0.games, st0.skipped, st0.seen;
    var n := 0;
    while n < |names|
      invariant 0 <= n <= |names|
      invariant ScanState(jogos, skips, seen) == LinkPass(st0, root, disk, names[..n])
    {
      var f := names[n];
      assert names[..n + 1][..n] == names[..n];
      if IsLink(f) {
        var lnkPath := Join(root, f);
        var resolved := Target(disk, lnkPath);
        if resolved.Some? && resolved.value != [] && resolved.value in disk.files && IsExe(resolved.value) {
          var absRes := resolved.value;
          if ExcludedByName(Basename(absRes)) {
            skips := skips + [Skip(lnkPath, LinkToExcludedExe)];
          } else if absRes !in seen {
            jogos := jogos + [Entry(LinkName(root, absRes), lnkPath, Dirname(absRes), true, Some(absRes))];
            seen := seen + {absRes};
          }
        } else {
          jogos := jogos + [Entry(Stem(f), lnkPath, UnresolvedFolder(root, disk, f), true, None)];
        }
      }
      n := n + 1;
    }
    assert names[..n] == names;
    st := ScanState(jogos, skips, seen);
  }

  /** `buscar_juegos(root, include_lnks_root, debug)`: the skipped list is
      returned only in debug mode. */
  method Scan(root: Path, walk: seq<WalkDir>, disk: Disk, includeLinks: bool, debug: bool)
    returns (games: seq<Entry>, skipped: Option<seq<Skip>>)
    ensures games == ScanSpec(root, walk, disk, includeLinks).0
    ensures skipped == if debug then Some(ScanSpec(root, walk, disk, includeLinks).1) else None
  {
    var g := GroupFiles(root, walk);
    var st := EmitAll(g, disk.sizes);
    if includeLinks && root in disk.listings {
      st := AddLinks(st, root, disk, disk.listings[root]);
    }
    games := SortBy(st.games, NameKey);
    skipped := if debug then Some(st.skipped) else None;
  }
}
