/**
  The two exclusion filters of the scanner (core/scanner.py). Each pattern
  list is an unanchored, case-insensitive alternation; every alternative is
  a plain lower-case word except `\bsetup\b`, which only matches between
  word boundaries. A text is excluded when one alternative occurs in its
  lower-cased form.
*/
module Exclusion {
  import opened Text

  datatype Pattern =
    | Literal(text: string)   // occurs anywhere
    | Word(text: string)      // occurs between word boundaries (`\b...\b`)

  /** The alternatives of the name filter, in source order. */
  const NamePatterns: seq<Pattern> := [
    Literal("uninst"), Literal("uninstall"), Literal("installer"), Word("setup"), Literal("install"),
    Literal("updat"), Literal("patch"), Literal("update"), Literal("repair"), Literal("remove"), Literal("autorun"),
    Literal("readme"), Literal("vcredist"), Literal("redistributable"), Literal("dxsetup"), Literal("directx"),
    Literal("crash"), Literal("crashreport"), Literal("crashreporter"), Literal("unitcrash"), Literal("launcher_helper"),
    Literal("steamwebhelper"), Literal("steamservice")
  ]

  /** The alternatives of the folder filter, in source order. */
  const FolderPatterns: seq<Pattern> := [
    Literal("redist"), Literal("commonredist"), Literal("__installer"), Literal("directx"), Literal("vcredist"),
    Literal("support"), Literal("crashreporter"), Literal("prereq"), Literal("installer"), Literal("tools")
  ]

  /** `w` occurs in `s` at position `i` with no word character on either side. */
  predicate WordAt(s: string, w: string, i: nat)
  {
    i + |w| <= |s| && s[i..i + |w|] == w
    && (i == 0 || !IsWordChar(s[i - 1]))
    && (i + |w| == |s| || !IsWordChar(s[i + |w|]))
  }

  /** `w` occurs in `s` as a whole word at position `i` or later. */
  predicate ContainsWordFrom(s: string, w: string, i: nat)
    decreases |s| - i
  {
    i + |w| <= |s| && (WordAt(s, w, i) || ContainsWordFrom(s, w, i + 1))
  }

  predicate Matches(s: string, p: Pattern)
  {
    match p
    case Literal(t) => Contains(s, t)
    case Word(t) => ContainsWordFrom(s, t, 0)
  }

  /** The alternation: one of `ps` matches `s`. */
  predicate MatchesAny(s: string, ps: seq<Pattern>)
  {
    exists k :: 0 <= k < |ps| && Matches(s, ps[k])
  }

  /** `_is_excluded_by_name`: the name filter finds an alternative in `filename`. */
  predicate ExcludedByName(filename: string)
  {
    MatchesAny(Lower(filename), NamePatterns)
  }

  /** `_is_excluded_by_folder`: the folder filter finds an alternative anywhere
      in the directory path, the scanned root included. */
  predicate ExcludedByFolder(folderPath: string)
  {
    MatchesAny(Lower(folderPath), FolderPatterns)
  }

  /** The name filter spelled out alternative by alternative. */
  lemma NameAlternatives(s: string)
    ensures MatchesAny(s, NamePatterns) ==>
      Contains(s, "uninst") || Contains(s, "uninstall") || Contains(s, "installer") || ContainsWordFrom(s, "setup", 0)
      || Contains(s, "install") || Contains(s, "updat") || Contains(s, "patch") || Contains(s, "update")
      || Contains(s, "repair") || Contains(s, "remove") || Contains(s, "autorun") || Contains(s, "readme")
      || Contains(s, "vcredist") || Contains(s, "redistributable") || Contains(s, "dxsetup") || Contains(s, "directx")
      || Contains(s, "crash") || Contains(s, "crashreport") || Contains(s, "crashreporter") || Contains(s, "unitcrash")
      || Contains(s, "launcher_helper") || Contains(s, "steamwebhelper") || Contains(s, "steamservice")
  {
  }

  /** A whole-word occurrence found from position `i` on is at some position. */
  lemma {:induction false} ContainsWordFromWitness(s: string, w: string, i: nat) returns (j: nat)
    requires ContainsWordFrom(s, w, i)
    ensures i <= j && WordAt(s, w, j)
    decreases |s| - i
  {
    if WordAt(s, w, i) {
      j := i;
    } else {
      j := ContainsWordFromWitness(s, w, i + 1);
    }
  }

  lemma {:induction false} WordAtGivesContainsWordFrom(s: string, w: string, i: nat, j: nat)
    requires i <= j && WordAt(s, w, j)
    ensures ContainsWordFrom(s, w, i)
    decreases j - i
  {
    if i < j {
      WordAtGivesContainsWordFrom(s, w, i + 1, j);
    }
  }

  /** Both filters ignore case: only the lower-cased text matters. */
  lemma ExclusionIgnoresCase(a: string, b: string)
    requires Lower(a) == Lower(b)
    ensures ExcludedByName(a) == ExcludedByName(b)
    ensures ExcludedByFolder(a) == ExcludedByFolder(b)
  {
  }

  /** The folder filter is unanchored: a path that contains an excluded
      path (the root, for instance) is itself excluded. */
  lemma {:induction false} FolderExclusionInContext(a: string, d: string, b: string)
    requires ExcludedByFolder(d)
    ensures ExcludedByFolder(a + d + b)
  {
    var k :| 0 <= k < |FolderPatterns| && Matches(Lower(d), FolderPatterns[k]);
    LowerConcat(a + d, b);
    LowerConcat(a, d);
    ContainsInContext(Lower(a), Lower(d), Lower(b), FolderPatterns[k].text);
    assert Matches(Lower(a + d + b), FolderPatterns[k]);
  }

  /** Every plain alternative of the name filter is unanchored as well. */
  lemma {:induction false} NameLiteralInContext(a: string, f: string, b: string, k: nat)
    requires k < |NamePatterns| && NamePatterns[k].Literal? && Matches(Lower(f), NamePatterns[k])
    ensures ExcludedByName(a + f + b)
  {
    LowerConcat(a + f, b);
    LowerConcat(a, f);
    ContainsInContext(Lower(a), Lower(f), Lower(b), NamePatterns[k].text);
    assert Matches(Lower(a + f + b), NamePatterns[k]);
  }

  /** One matching alternative is enough to exclude a name. */
  lemma NameMatchExcludes(f: string, k: nat)
    requires k < |NamePatterns| && Matches(Lower(f), NamePatterns[k])
    ensures ExcludedByName(f)
  {
  }
}
