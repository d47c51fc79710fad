/**
  The path algebra of Python's `os.path` that the scanner and the cover
  manager use, over strings with the Windows separator `\`: `join`,
  `basename`, `dirname`, `splitext` and the first component of `relpath`.
  A filesystem snapshot is a value of `Disk`.
*/
module Paths {
  import opened Wrappers
  import opened Text

  type Path = string

  const Sep: char := '\\'

  /** What the scanner and the cover manager ask of the filesystem:
      which paths are regular files (`os.path.isfile`) and directories
      (`os.path.isdir`), what `os.listdir` returns (a directory missing from
      `listings` is one whose listing raises), the sizes `os.path.getsize`
      reports (a missing path raises), and what a shortcut resolves to. */
  datatype Disk = Disk(
    files: set<Path>,
    dirs: set<Path>,
    listings: map<Path, seq<string>>,
    sizes: map<Path, nat>,
    links: map<Path, Path>)

  predicate EndsWithSep(a: Path)
  {
    a != [] && a[|a| - 1] == Sep
  }

  /** `a` ready for a name to be appended: `os.path.join` adds a separator
      unless `a` is empty or already ends with one. */
  function DirPrefix(a: Path): (r: Path)
    ensures StartsWith(r, a) && |r| <= |a| + 1
  {
    if a == [] || EndsWithSep(a) then a else a + [Sep]
  }

  /** `os.path.join(a, b)` for a relative name `b`. */
  function Join(a: Path, b: string): (r: Path)
    ensures EndsWith(r, b) && StartsWith(r, a)
  {
    DirPrefix(a) + b
  }

  /** `os.path.basename(p)`: what follows the last separator. */
  function Basename(p: Path): (r: string)
    ensures Sep !in r && EndsWith(p, r)
    ensures |r| < |p| ==> p[|p| - |r| - 1] == Sep
  {
    if p == [] || p[|p| - 1] == Sep then [] else Basename(p[..|p| - 1]) + [p[|p| - 1]]
  }

  lemma BasenameOfJoin(a: Path, name: string)
    requires Sep !in name
    ensures Basename(Join(a, name)) == name
  {
  }

  predicate AllSeps(s: string)
  {
    forall i :: 0 <= i < |s| ==> s[i] == Sep
  }

  function TrimTrailingSeps(s: string): (r: string)
    ensures StartsWith(s, r) && !EndsWithSep(r)
  {
    if EndsWithSep(s) then TrimTrailingSeps(s[..|s| - 1]) else s
  }

  /** `os.path.dirname(p)`: everything before the basename, without the
      separators that end it, unless it consists of separators only. */
  function Dirname(p: Path): (r: Path)
  {
    var head := p[..|p| - |Basename(p)|];
    if AllSeps(head) then head else TrimTrailingSeps(head)
  }

  lemma DirnameOfJoin(a: Path, name: string)
    requires Sep !in name && a != [] && !EndsWithSep(a)
    ensures Dirname(Join(a, name)) == a
  {
    BasenameOfJoin(a, name);
    var j := Join(a, name);
    assert j[..|j| - |name|] == a + [Sep];
    assert !AllSeps(a + [Sep]) by { assert (a + [Sep])[|a| - 1] != Sep; }
    assert TrimTrailingSeps(a + [Sep]) == TrimTrailingSeps(a) by {
      assert (a + [Sep])[..|a|] == a;
    }
  }

  /** Index of the last `c` in `s`, or -1 when there is none. */
  function LastIndexOf(s: string, c: char): (r: int)
    ensures -1 <= r < |s|
    ensures r >= 0 ==> s[r] == c
    ensures forall i :: r < i < |s| ==> s[i] != c
  {
    if s == [] then -1
    else if s[|s| - 1] == c then |s| - 1
    else LastIndexOf(s[..|s| - 1], c)
  }

  predicate AllDots(s: string)
  {
    forall i :: 0 <= i < |s| ==> s[i] == '.'
  }

  /** `os.path.splitext(name)[0]` for a name without separators: the name
      up to its last dot, unless only dots precede that dot (a leading-dot
      name such as `.exe` has no extension). */
  function Stem(name: string): (r: string)
    ensures StartsWith(name, r)
    ensures name != [] ==> r != []
    ensures r == name || (|r| < |name| && name[|r|] == '.' && '.' !in name[|r| + 1..] && !AllDots(r))
    ensures r == name ==> forall i :: 0 <= i < |name| && name[i] == '.' ==> AllDots(name[..i])
  {
    var d := LastIndexOf(name, '.');
    if d >= 0 && !AllDots(name[..d]) then
      name[..d]
    else
      assert forall i :: 0 <= i < |name| && name[i] == '.' ==> AllDots(name[..i]) by {
        forall i | 0 <= i < |name| && name[i] == '.' ensures AllDots(name[..i]) {
          assert i <= d;
          assert name[..i] == name[..d][..i];
        }
      }
      name
  }

  /** Only the last extension is cut: the stem of `game.bin.exe` is `game.bin`. */
  lemma StemCutsLastExtension(name: string)
    requires name == "game.bin" + ".exe"
    ensures Stem(name) == "game.bin"
  {
    var r := Stem(name);
    assert name[4] == '.' && name[8] == '.';
    assert !AllDots(name[..4]) by { assert name[..4][0] == 'g'; }
    assert r == name[..8];
  }

  /** The directory `os.walk(root)` reports for the directory reached through
      the components `parts`: `root` joined with each component in turn. */
  function DirPath(root: Path, parts: seq<string>): (r: Path)
  {
    if parts == [] then root else Join(DirPath(root, parts[..|parts| - 1]), parts[|parts| - 1])
  }

  /** The text before the first separator of `t` (all of `t` without one):
      `t.split(os.sep)[0]`. */
  function FirstComponent(t: string): (r: string)
    ensures Sep !in r && StartsWith(t, r)
    ensures |r| < |t| ==> t[|r|] == Sep
  {
    if t == [] || t[0] == Sep then [] else [t[0]] + FirstComponent(t[1..])
  }

  /** `os.path.relpath(dir, root).split(os.sep)[0]`: "." for the root
      itself, the first component below the root for a directory under it,
      and ".." for a directory elsewhere. */
  function RelTop(root: Path, dir: Path): (r: string)
  {
    if dir == root || dir == DirPrefix(root) then "."
    else if StartsWith(dir, DirPrefix(root)) then FirstComponent(dir[|DirPrefix(root)|..])
    else ".."
  }

  /** Walked components: nonempty names without separators. */
  predicate PlainNames(parts: seq<string>)
  {
    forall k :: 0 <= k < |parts| ==> parts[k] != [] && Sep !in parts[k]
  }

  lemma {:induction false} DirPathStartsWithRoot(root: Path, parts: seq<string>)
    ensures StartsWith(DirPath(root, parts), root)
  {
    if parts != [] {
      DirPathStartsWithRoot(root, parts[..|parts| - 1]);
    }
  }

  /** The separators and components after the first one. */
  function Below(parts: seq<string>): string
  {
    if |parts| <= 1 then [] else Below(parts[..|parts| - 1]) + [Sep] + parts[|parts| - 1]
  }

  lemma BelowStartsWithSep(parts: seq<string>)
    ensures Below(parts) == [] || Below(parts)[0] == Sep
    ensures |parts| > 1 ==> Below(parts) != []
  {
    if |parts| > 1 {
      BelowStartsWithSep(parts[..|parts| - 1]);
    }
  }

  lemma LastCharNotSep(d: Path, last: string)
    requires last != [] && Sep !in last && EndsWith(d, last)
    ensures d != [] && !EndsWithSep(d)
  {
    assert d[|d| - 1] == d[|d| - |last|..][|last| - 1];
  }

  lemma PlainNamesInit(parts: seq<string>)
    requires parts != [] && PlainNames(parts)
    ensures PlainNames(parts[..|parts| - 1])
  {
    var init := parts[..|parts| - 1];
    forall k | 0 <= k < |init| ensures init[k] != [] && Sep !in init[k] {
      assert init[k] == parts[k];
    }
  }

  lemma JoinAfter(d: Path, h: string, b: string, name: string)
    requires d == h + b && d != [] && !EndsWithSep(d)
    ensures Join(d, name) == h + (b + [Sep] + name)
  {
  }

  /** Below the root, a walked directory's path is the root's prefix, the
      first component, and the rest of the components each after a
      separator. */
  lemma {:induction false} DirPathForm(root: Path, parts: seq<string>)
    requires parts != [] && PlainNames(parts)
    ensures DirPath(root, parts) == DirPrefix(root) + parts[0] + Below(parts)
  {
    if |parts| > 1 {
      var init := parts[..|parts| - 1];
      PlainNamesInit(parts);
      DirPathForm(root, init);
      LastCharNotSep(DirPath(root, init), init[|init| - 1]);
      JoinAfter(DirPath(root, init), DirPrefix(root) + init[0], Below(init), parts[|parts| - 1]);
    }
  }

  lemma {:induction false} FirstComponentOfPrefix(w: string, t: string)
    requires Sep !in w && (t == [] || t[0] == Sep)
    ensures FirstComponent(w + t) == w
  {
    if w != [] {
      assert (w + t)[1..] == w[1..] + t;
      FirstComponentOfPrefix(w[1..], t);
    } else {
      assert w + t == t;
    }
  }

  lemma RelTopBelow(root: Path, dir: Path, w: string, t: string)
    requires dir == DirPrefix(root) + w + t
    requires w != [] && Sep !in w && (t == [] || t[0] == Sep)
    ensures RelTop(root, dir) == w
  {
    var p := DirPrefix(root);
    assert dir[..|p|] == p;
    assert dir[|p|..] == w + t;
    FirstComponentOfPrefix(w, t);
  }

  /** `relpath(dir, root).split(os.sep)[0]` of a walked directory below
      the root is its first component. */
  lemma RelTopOfDirPath(root: Path, parts: seq<string>)
    requires parts != [] && PlainNames(parts)
    ensures RelTop(root, DirPath(root, parts)) == parts[0]
  {
    DirPathForm(root, parts);
    BelowStartsWithSep(parts);
    RelTopBelow(root, DirPath(root, parts), parts[0], Below(parts));
  }
}
