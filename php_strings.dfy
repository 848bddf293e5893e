/** The handful of PHP string built-ins the core relies on, with their PHP
    semantics written out: `strpos`, `substr` with a negative start, splitting
    at the first newline, and the truthiness of a string in a condition. */
module PhpStrings {
  import opened Wrappers

  /** A string is falsy in a PHP condition exactly when it is "" or "0". */
  predicate Truthy(s: string) {
    s != "" && s != "0"
  }

  predicate StartsWith(s: string, prefix: string) {
    |prefix| <= |s| && s[..|prefix|] == prefix
  }

  predicate EndsWith(s: string, suffix: string) {
    |suffix| <= |s| && s[|s| - |suffix|..] == suffix
  }

  /** Concatenation regrouped, for any element type: stated apart so that
      the lemmas about strings do not have to find it among their own facts. */
  lemma Regroup<T>(a: seq<T>, b: seq<T>, c: seq<T>)
    ensures a + (b + c) == a + b + c
  {
  }

  lemma StartsWithShorter(s: string, a: string, b: string)
    requires StartsWith(s, a + b)
    ensures StartsWith(s, a)
  {
    assert s[..|a|] == (a + b)[..|a|];
  }

  /** `pat` occurs in `s` at offset `i`. */
  predicate OccursAt(s: string, pat: string, i: int) {
    0 <= i && i + |pat| <= |s| && s[i..i + |pat|] == pat
  }

  /** `strpos($s, $pat)`: the offset of the first occurrence of `pat` in `s`,
      or None where PHP returns `false`. */
  function Find(s: string, pat: string): (r: Option<nat>)
    ensures r.Some? ==> OccursAt(s, pat, r.value)
    ensures r.Some? ==> forall j :: 0 <= j < r.value ==> !OccursAt(s, pat, j)
    ensures r.None? ==> forall j :: !OccursAt(s, pat, j)
    decreases |s|
  {
    if |s| < |pat| then None
    else if s[..|pat|] == pat then Some(0)
    else
      match Find(s[1..], pat)
      case None =>
        assert forall j :: OccursAt(s, pat, j) && j > 0 ==> OccursAt(s[1..], pat, j - 1);
        None
      case Some(k) =>
        assert OccursAt(s[1..], pat, k);
        assert s[1..][k..k + |pat|] == s[k + 1..k + 1 + |pat|];
        assert forall j :: 0 < j <= k && OccursAt(s, pat, j) ==> OccursAt(s[1..], pat, j - 1);
        Some(k + 1)
  }

  /** `strpos` finds an occurrence exactly when no earlier one exists. */
  lemma FindAt(s: string, pat: string, i: nat)
    requires OccursAt(s, pat, i)
    requires forall j :: 0 <= j < i ==> !OccursAt(s, pat, j)
    ensures Find(s, pat) == Some(i)
  {
  }

  /** The occurrences of `pat` that start inside `a` are those of `a + pat`. */
  lemma OccursAtPrefix(a: string, pat: string, rest: string, j: int)
    requires 0 <= j < |a|
    ensures OccursAt(a + pat + rest, pat, j) == OccursAt(a + pat, pat, j)
  {
    if j + |pat| <= |a| + |pat| {
      assert (a + pat + rest)[j..j + |pat|] == (a + pat)[j..j + |pat|];
    }
  }

  /** `strpos($s, $c) === false` for a one-character `$c`: `c` is not in `s`. */
  lemma FindCharNone(s: string, c: char)
    ensures Find(s, [c]).None? <==> c !in s
  {
    assert forall i :: 0 <= i < |s| ==> OccursAt(s, [c], i) == (s[i] == c) by {
      forall i | 0 <= i < |s| ensures OccursAt(s, [c], i) == (s[i] == c) {
        assert s[i..i + 1] == [s[i]];
      }
    }
  }

  /** What `ClassExplorer::trimLine` and PHP's line handling split on: the text
      before the first "\n", and the text after it. None when there is no newline. */
  function SplitLine(s: string): (r: Option<(string, string)>)
    ensures r.Some? <==> '\n' in s
    ensures r.Some? ==> s == r.value.0 + "\n" + r.value.1 && '\n' !in r.value.0
  {
    match Find(s, "\n")
    case None =>
      assert forall i :: 0 <= i < |s| ==> OccursAt(s, "\n", i) == (s[i] == '\n');
      None
    case Some(i) =>
      assert s[i] == '\n' by { assert s[i..i + 1] == "\n"; }
      assert forall j :: 0 <= j < i ==> s[j] != '\n' by {
        forall j | 0 <= j < i ensures s[j] != '\n' {
          assert !OccursAt(s, "\n", j);
          assert s[j..j + 1] == [s[j]];
        }
      }
      assert s == s[..i] + "\n" + s[i + 1..];
      Some((s[..i], s[i + 1..]))
  }

  /** The only split of `line + "\n" + rest` at its first newline. */
  lemma {:induction false} SplitLineOf(line: string, rest: string)
    requires '\n' !in line
    ensures SplitLine(line + "\n" + rest) == Some((line, rest))
  {
    var s := line + "\n" + rest;
    var r := SplitLine(s);
    assert '\n' in s by { assert s[|line|] == '\n'; }
    var (l, t) := r.value;
    assert forall j :: 0 <= j < |line| ==> s[j] == line[j];
    assert s[|line|] == '\n';
    assert s[|l|] == '\n';
    assert forall j :: 0 <= j < |l| ==> s[j] == l[j];
    assert |l| == |line|;
    assert l == s[..|line|] == line;
    assert t == s[|line| + 1..] == rest;
  }

  /** `explode("\n", $s)`: the lines of `s`; the last one is whatever follows
      the last newline (possibly ""). */
  function Lines(s: string): (r: seq<string>)
    ensures |r| >= 1
    ensures forall i :: 0 <= i < |r| ==> '\n' !in r[i]
    decreases |s|
  {
    match SplitLine(s)
    case None => [s]
    case Some((line, rest)) => [line] + Lines(rest)
  }

  lemma LinesOf(line: string, rest: string)
    requires '\n' !in line
    ensures Lines(line + "\n" + rest) == [line] + Lines(rest)
  {
    SplitLineOf(line, rest);
  }

  /** `substr($s, $start)` for a negative `$start` (PHP 8): the last `-start`
      characters of `s`, or all of `s` when it is shorter. */
  function SubstrFromEnd(s: string, n: nat): (r: string)
    ensures EndsWith(s, r)
    ensures |r| == if n <= |s| then n else |s|
  {
    if n <= |s| then s[|s| - n..] else s
  }
}
