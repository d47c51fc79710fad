/**
  `_best_exe_for_group` (core/scanner.py): which executable represents a
  group. The first rule that applies decides:
    1. the first candidate whose lower-cased stem equals the lower-cased
       folder name;
    2. the first candidate whose lower-cased stem contains a token of the
       folder name that is at least three characters long, tokens being the
       pieces between runs of whitespace, `_`, `-` and `.`;
    3. the only candidate;
    4. the first candidate of largest size, or the first candidate when a
       size cannot be read.
*/
module Selection {
  import opened Wrappers
  import opened Text
  import opened Paths

  /** `os.path.splitext(os.path.basename(p))[0].lower()`. */
  function LowerStem(p: Path): string
  {
    Lower(Stem(Basename(p)))
  }

  /** A character of the class `[\s_\-\.]` that separates folder-name tokens. */
  predicate IsDelimiter(c: char)
  {
    IsSpace(c) || c == '_' || c == '-' || c == '.'
  }

  function FirstDelimiter(s: string): (r: nat)
    ensures r <= |s|
    ensures r < |s| ==> IsDelimiter(s[r])
    ensures forall i :: 0 <= i < r ==> !IsDelimiter(s[i])
  {
    if s == [] || IsDelimiter(s[0]) then 0 else 1 + FirstDelimiter(s[1..])
  }

  /** `[w for w in re.split(r"[\s_\-\.]+", s) if w]`: the non-empty pieces of
      `s` between delimiters, in order. */
  function Tokens(s: string): seq<string>
    decreases |s|
  {
    var i := FirstDelimiter(s);
    if i == |s| then (if s == [] then [] else [s])
    else (if i == 0 then [] else [s[..i]]) + Tokens(s[i + 1..])
  }

  /** The tokens are nonempty and contain no delimiter. */
  lemma {:induction false} TokensAreWords(s: string)
    ensures forall k :: 0 <= k < |Tokens(s)| ==> Tokens(s)[k] != [] && forall i :: 0 <= i < |Tokens(s)[k]| ==> !IsDelimiter(Tokens(s)[k][i])
    decreases |s|
  {
    var i := FirstDelimiter(s);
    if i < |s| {
      TokensAreWords(s[i + 1..]);
    }
  }

  /** The first delimiter is at `i` when `i` is a delimiter position, or the
      end, and nothing before it is a delimiter. */
  lemma FirstDelimiterAt(s: string, i: nat)
    requires i <= |s| && (i < |s| ==> IsDelimiter(s[i]))
    requires forall j :: 0 <= j < i ==> !IsDelimiter(s[j])
    ensures FirstDelimiter(s) == i
  {
  }

  /** Splitting at a delimiter: the tokens of `a + [d] + b` are those of `a`
      followed by those of `b`. */
  lemma {:induction false} TokensSplitAt(a: string, d: char, b: string)
    requires IsDelimiter(d)
    ensures Tokens(a + [d] + b) == Tokens(a) + Tokens(b)
    decreases |a|
  {
    var i := FirstDelimiter(a);
    if i < |a| {
      TokensSplitAt(a[i + 1..], d, b);
      TokensSplitPastDelimiter(a, d, b, i);
    } else {
      TokensSplitWord(a, d, b);
    }
  }

  /** The step of `TokensSplitAt` when `a` has a delimiter at `i`. */
  lemma TokensSplitPastDelimiter(a: string, d: char, b: string, i: nat)
    requires IsDelimiter(d) && i == FirstDelimiter(a) && i < |a|
    requires Tokens(a[i + 1..] + [d] + b) == Tokens(a[i + 1..]) + Tokens(b)
    ensures Tokens(a + [d] + b) == Tokens(a) + Tokens(b)
  {
    SplitPieces(a, d, b, i);
    TokensAt(a + [d] + b, i);
    TokensAt(a, i);
    ConcatAssociative(if i == 0 then [] else [a[..i]], Tokens(a[i + 1..]), Tokens(b));
  }

  lemma SplitPieces(a: string, d: char, b: string, i: nat)
    requires i == FirstDelimiter(a) && i < |a|
    ensures FirstDelimiter(a + [d] + b) == i
    ensures (a + [d] + b)[i + 1..] == a[i + 1..] + [d] + b
    ensures (a + [d] + b)[..i] == a[..i]
  {
    FirstDelimiterAt(a + [d] + b, i);
  }

  lemma ConcatAssociative<T>(a: seq<T>, b: seq<T>, c: seq<T>)
    ensures a + (b + c) == (a + b) + c
  {
  }

  /** One unfolding of `Tokens` at its first delimiter `i`. */
  lemma TokensAt(s: string, i: nat)
    requires i == FirstDelimiter(s) && i < |s|
    ensures Tokens(s) == (if i == 0 then [] else [s[..i]]) + Tokens(s[i + 1..])
  {
  }

  /** The case of `TokensSplitAt` when `a` has no delimiter. */
  lemma TokensSplitWord(a: string, d: char, b: string)
    requires IsDelimiter(d) && FirstDelimiter(a) == |a|
    ensures Tokens(a + [d] + b) == Tokens(a) + Tokens(b)
  {
    var s := a + [d] + b;
    FirstDelimiterAt(s, |a|);
    assert s[..|a|] == a;
    assert s[|a| + 1..] == b;
  }

  /** A word without delimiters is its own single token. */
  lemma TokensOfWord(w: string)
    requires w != [] && forall i :: 0 <= i < |w| ==> !IsDelimiter(w[i])
    ensures Tokens(w) == [w]
  {
  }

  /** Rule 2's test: a token of at least three characters occurs in `stem`. */
  predicate SharesToken(stem: string, words: seq<string>)
  {
    exists w :: w in words && |w| >= 3 && Contains(stem, w)
  }

  /** The lower-cased stems of the candidates, in order. */
  function Stems(ps: seq<Path>): (r: seq<string>)
    ensures |r| == |ps|
    ensures forall j :: 0 <= j < |ps| ==> r[j] == LowerStem(ps[j])
  {
    if ps == [] then [] else [LowerStem(ps[0])] + Stems(ps[1..])
  }

  /** Index of the first stem equal to `top` (|stems| if none). */
  function FirstExact(stems: seq<string>, top: string): (r: nat)
    ensures r <= |stems|
    ensures r < |stems| ==> stems[r] == top
    ensures forall j :: 0 <= j < r ==> stems[j] != top
  {
    if stems == [] then 0
    else if stems[0] == top then 0
    else 1 + FirstExact(stems[1..], top)
  }

  /** Index of the first stem that shares a token (|stems| if none). */
  function FirstSharing(stems: seq<string>, words: seq<string>): (r: nat)
    ensures r <= |stems|
    ensures r < |stems| ==> SharesToken(stems[r], words)
    ensures forall j :: 0 <= j < r ==> !SharesToken(stems[j], words)
  {
    if stems == [] then 0
    else if SharesToken(stems[0], words) then 0
    else 1 + FirstSharing(stems[1..], words)
  }

  /** Every candidate has a size `os.path.getsize` can read. */
  predicate AllSized(ps: seq<Path>, sizes: map<Path, nat>)
  {
    forall j :: 0 <= j < |ps| ==> ps[j] in sizes
  }

  /** `max(ps, key=getsize)`: the index of the first candidate of largest size. */
  function FirstLargest(ps: seq<Path>, sizes: map<Path, nat>): (r: nat)
    requires ps != [] && AllSized(ps, sizes)
    ensures r < |ps|
    ensures forall j :: 0 <= j < |ps| ==> sizes[ps[j]] <= sizes[ps[r]]
    ensures forall j :: 0 <= j < r ==> sizes[ps[j]] < sizes[ps[r]]
  {
    if |ps| == 1 then 0
    else
      var k := FirstLargest(ps[..|ps| - 1], sizes);
      if sizes[ps[|ps| - 1]] > sizes[ps[k]] then |ps| - 1 else k
  }

  /** `_best_exe_for_group(ps, folderName)`, with the file sizes given as a
      partial map. */
  function BestExe(ps: seq<Path>, folderName: string, sizes: map<Path, nat>): (r: Option<Path>)
    ensures r.None? <==> ps == []
    ensures r.Some? ==> r.value in ps
  {
    if ps == [] then None
    else
      var top := Lower(folderName);
      var stems := Stems(ps);
      var e := FirstExact(stems, top);
      if e < |ps| then Some(ps[e])
      else
        var t := FirstSharing(stems, Tokens(top));
        if t < |ps| then Some(ps[t])
        else if |ps| == 1 then Some(ps[0])
        else if AllSized(ps, sizes) then Some(ps[FirstLargest(ps, sizes)])
        else Some(ps[0])
  }

  /** Rule 1: the first exact stem match wins over every later rule. */
  lemma ExactNameWins(ps: seq<Path>, folderName: string, sizes: map<Path, nat>, i: nat)
    requires i < |ps| && LowerStem(ps[i]) == Lower(folderName)
    requires forall j :: 0 <= j < i ==> LowerStem(ps[j]) != Lower(folderName)
    ensures BestExe(ps, folderName, sizes) == Some(ps[i])
  {
    var stems := Stems(ps);
    var e := FirstExact(stems, Lower(folderName));
    assert e <= i;
    assert e == i;
  }

  /** Rule 2: without an exact match, the first candidate sharing a token wins. */
  lemma TokenMatchWins(ps: seq<Path>, folderName: string, sizes: map<Path, nat>, i: nat)
    requires forall j :: 0 <= j < |ps| ==> LowerStem(ps[j]) != Lower(folderName)
    requires i < |ps| && SharesToken(LowerStem(ps[i]), Tokens(Lower(folderName)))
    requires forall j :: 0 <= j < i ==> !SharesToken(LowerStem(ps[j]), Tokens(Lower(folderName)))
    ensures BestExe(ps, folderName, sizes) == Some(ps[i])
  {
    var stems := Stems(ps);
    var top := Lower(folderName);
    assert FirstExact(stems, top) == |ps|;
    var t := FirstSharing(stems, Tokens(top));
    assert t <= i;
    assert t == i;
  }

  /** Rule 3: a lone candidate is chosen whatever its name. */
  lemma SingleCandidateChosen(p: Path, folderName: string, sizes: map<Path, nat>)
    ensures BestExe([p], folderName, sizes) == Some(p)
  {
  }

  /** Without name evidence, two or more candidates go to the size rule. */
  lemma NoNameEvidence(ps: seq<Path>, folderName: string, sizes: map<Path, nat>)
    requires |ps| >= 2
    requires forall j :: 0 <= j < |ps| ==> LowerStem(ps[j]) != Lower(folderName)
    requires forall j :: 0 <= j < |ps| ==> !SharesToken(LowerStem(ps[j]), Tokens(Lower(folderName)))
    ensures BestExe(ps, folderName, sizes) == if AllSized(ps, sizes) then Some(ps[FirstLargest(ps, sizes)]) else Some(ps[0])
  {
    var stems := Stems(ps);
    var top := Lower(folderName);
    assert FirstExact(stems, top) == |ps|;
    assert FirstSharing(stems, Tokens(top)) == |ps|;
  }

  /** Rule 4: with no name evidence and every size known, the first
      candidate of largest size wins. */
  lemma LargestWins(ps: seq<Path>, folderName: string, sizes: map<Path, nat>, i: nat)
    requires |ps| >= 2 && AllSized(ps, sizes)
    requires forall j :: 0 <= j < |ps| ==> LowerStem(ps[j]) != Lower(folderName)
    requires forall j :: 0 <= j < |ps| ==> !SharesToken(LowerStem(ps[j]), Tokens(Lower(folderName)))
    requires i < |ps|
    requires forall j :: 0 <= j < |ps| ==> sizes[ps[j]] <= sizes[ps[i]]
    requires forall j :: 0 <= j < i ==> sizes[ps[j]] < sizes[ps[i]]
    ensures BestExe(ps, folderName, sizes) == Some(ps[i])
  {
    NoNameEvidence(ps, folderName, sizes);
    assert FirstLargest(ps, sizes) == i;
  }

  /** Rule 4's fallback: a size that cannot be read makes the first candidate win. */
  lemma UnknownSizeChoosesFirst(ps: seq<Path>, folderName: string, sizes: map<Path, nat>, i: nat)
    requires |ps| >= 2 && i < |ps| && ps[i] !in sizes
    requires forall j :: 0 <= j < |ps| ==> LowerStem(ps[j]) != Lower(folderName)
    requires forall j :: 0 <= j < |ps| ==> !SharesToken(LowerStem(ps[j]), Tokens(Lower(folderName)))
    ensures BestExe(ps, folderName, sizes) == Some(ps[0])
  {
    NoNameEvidence(ps, folderName, sizes);
  }

  lemma UniqueExactIsFirst(ps: seq<Path>, top: string, x: Path)
    requires x in ps && LowerStem(x) == top
    requires forall y :: y in ps && LowerStem(y) == top ==> y == x
    ensures FirstExact(Stems(ps), top) < |ps| && ps[FirstExact(Stems(ps), top)] == x
  {
    var i :| 0 <= i < |ps| && ps[i] == x;
    assert FirstExact(Stems(ps), top) <= i;
  }

  /** Rule 1 does not depend on the enumeration order when exactly one
      candidate's stem equals the folder name. */
  lemma UniqueExactMatchIgnoresOrder(ps: seq<Path>, qs: seq<Path>, folderName: string, sizes: map<Path, nat>, x: Path)
    requires multiset(ps) == multiset(qs)
    requires x in ps && LowerStem(x) == Lower(folderName)
    requires forall y :: y in ps && LowerStem(y) == Lower(folderName) ==> y == x
    ensures BestExe(ps, folderName, sizes) == BestExe(qs, folderName, sizes) == Some(x)
  {
    assert forall y :: y in qs <==> y in ps by {
      forall y ensures y in qs <==> y in ps {
        assert y in qs <==> y in multiset(qs);
        assert y in ps <==> y in multiset(ps);
      }
    }
    UniqueExactIsFirst(ps, Lower(folderName), x);
    UniqueExactIsFirst(qs, Lower(folderName), x);
  }
}
