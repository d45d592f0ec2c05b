/**
 * The Python string and path operations the benchmark scripts rely on:
 * `str.strip()`, the substring test `sep in s`, `str.split(sep)`,
 * `str.split(sep, 1)` and POSIX `os.path.basename`.
 */
module PyText {
  import opened Wrappers

  /** Python's `str.isspace` for one character: the characters `str.strip()` removes. */
  predicate IsSpace(c: char)
  {
    c == ' ' || ('\t' <= c <= '\r') || ('\U{001C}' <= c <= '\U{001F}') ||
    c == '\U{0085}' || c == '\U{00A0}' || c == '\U{1680}' || ('\U{2000}' <= c <= '\U{200A}') ||
    c == '\U{2028}' || c == '\U{2029}' || c == '\U{202F}' || c == '\U{205F}' || c == '\U{3000}'
  }

  predicate AllSpace(s: string)
  {
    forall k :: 0 <= k < |s| ==> IsSpace(s[k])
  }

  /** The first position at or after `i` that does not hold whitespace, or `|s|`. */
  function SkipSpace(s: string, i: nat): nat
    requires i <= |s|
    decreases |s| - i
  {
    if i < |s| && IsSpace(s[i]) then SkipSpace(s, i + 1) else i
  }

  /** `SkipSpace` stops at the first non-whitespace position and passes only whitespace. */
  lemma {:induction false} SkipSpaceSpec(s: string, i: nat)
    requires i <= |s|
    ensures var k := SkipSpace(s, i);
      i <= k <= |s| && (k < |s| ==> !IsSpace(s[k])) &&
      forall j :: i <= j < k ==> IsSpace(s[j])
    decreases |s| - i
  {
    if i < |s| && IsSpace(s[i]) {
      SkipSpaceSpec(s, i + 1);
    }
  }

  /** The end of `s[lo..j]` once its trailing whitespace is cut off. */
  function TrimEnd(s: string, lo: nat, j: nat): nat
    requires lo <= j <= |s|
  {
    if j > lo && IsSpace(s[j - 1]) then TrimEnd(s, lo, j - 1) else j
  }

  /** `TrimEnd` cuts back to just after a non-whitespace character, or to `lo`, and cuts only whitespace. */
  lemma {:induction false} TrimEndSpec(s: string, lo: nat, j: nat)
    requires lo <= j <= |s|
    ensures var k := TrimEnd(s, lo, j);
      lo <= k <= j && (k > lo ==> !IsSpace(s[k - 1])) &&
      forall t :: k <= t < j ==> IsSpace(s[t])
  {
    if j > lo && IsSpace(s[j - 1]) {
      TrimEndSpec(s, lo, j - 1);
    }
  }

  /** Where the text `strip()` keeps starts. */
  function StripStart(s: string): (a: nat)
    ensures a <= |s|
  {
    SkipSpaceSpec(s, 0);
    SkipSpace(s, 0)
  }

  /** Where the text `strip()` keeps ends. */
  function StripEnd(s: string): (b: nat)
    ensures StripStart(s) <= b <= |s|
  {
    TrimEndSpec(s, StripStart(s), |s|);
    TrimEnd(s, StripStart(s), |s|)
  }

  /** Python's `s.strip()`: `s` without its leading and trailing whitespace. */
  function Strip(s: string): string
  {
    s[StripStart(s)..StripEnd(s)]
  }

  /**
   * `strip()` keeps the infix of `s` between a run of leading and a run of
   * trailing whitespace, and that infix neither starts nor ends with
   * whitespace.
   */
  lemma StripSpec(s: string)
    ensures var a, b := StripStart(s), StripEnd(s); var r := Strip(s);
      a <= b <= |s| && r == s[a..b] &&
      (forall j :: 0 <= j < a ==> IsSpace(s[j])) &&
      (forall j :: b <= j < |s| ==> IsSpace(s[j])) &&
      (r == [] || (!IsSpace(r[0]) && !IsSpace(r[|r| - 1])))
  {
    var a, b := StripStart(s), StripEnd(s);
    SkipSpaceSpec(s, 0);
    TrimEndSpec(s, a, |s|);
    if a < b {
      var r := Strip(s);
      assert r[0] == s[a] && r[|r| - 1] == s[b - 1];
    }
  }

  /** A string strips to nothing exactly when it is all whitespace. */
  lemma StripEmptyIffBlank(s: string)
    ensures Strip(s) == [] <==> AllSpace(s)
  {
    StripSpec(s);
    SkipSpaceSpec(s, 0);
    TrimEndSpec(s, StripStart(s), |s|);
  }

  /** Stripping twice is stripping once. */
  lemma StripIdempotent(s: string)
    ensures Strip(Strip(s)) == Strip(s)
  {
    var r := Strip(s);
    StripSpec(s);
    if r != [] {
      assert StripStart(r) == 0;
      assert StripEnd(r) == |r|;
      assert r[0..|r|] == r;
    }
  }

  /** `sep` occurs in `s` starting at position `k`. */
  predicate OccursAt(s: string, sep: string, k: nat)
  {
    k + |sep| <= |s| && s[k..k + |sep|] == sep
  }

  /** The first position at or after `i` at which `sep` occurs in `s`. */
  function IndexFrom(s: string, sep: string, i: nat): (r: Option<nat>)
    ensures r.Some? ==> i <= r.value && OccursAt(s, sep, r.value)
    ensures r.Some? ==> forall k :: i <= k < r.value ==> !OccursAt(s, sep, k)
    ensures r.None? ==> forall k :: i <= k ==> !OccursAt(s, sep, k)
    decreases |s| - i
  {
    if i + |sep| > |s| then None
    else if OccursAt(s, sep, i) then Some(i)
    else IndexFrom(s, sep, i + 1)
  }

  /** Python's `s.find(sep)`, as an option: the first position at which `sep` occurs. */
  function IndexOf(s: string, sep: string): (r: Option<nat>)
    ensures r.Some? ==> OccursAt(s, sep, r.value)
    ensures r.Some? ==> forall k :: 0 <= k < r.value ==> !OccursAt(s, sep, k)
    ensures r.None? ==> forall k :: 0 <= k ==> !OccursAt(s, sep, k)
  {
    IndexFrom(s, sep, 0)
  }

  /** Python's substring test `sep in s`. */
  predicate Contains(s: string, sep: string)
  {
    IndexOf(s, sep).Some?
  }

  /** For a one-character separator, `sep in s` is membership of that character. */
  lemma ContainsChar(s: string, c: char)
    ensures Contains(s, [c]) <==> c in s
  {
    if c in s {
      var k :| 0 <= k < |s| && s[k] == c;
      assert s[k..k + 1] == [c];
      assert OccursAt(s, [c], k);
    } else {
      forall k | 0 <= k && k + 1 <= |s| ensures !OccursAt(s, [c], k) {
        assert s[k..k + 1][0] == s[k];
      }
    }
  }

  /** A string that neither starts nor ends with whitespace is its own `strip()`. */
  lemma StripUntrimmed(s: string)
    requires s == [] || (!IsSpace(s[0]) && !IsSpace(s[|s| - 1]))
    ensures Strip(s) == s
  {
    if s != [] {
      assert StripStart(s) == 0;
      assert StripEnd(s) == |s|;
      assert s[0..|s|] == s;
    }
  }

  /** `strip()` only removes characters: one absent from `s` is absent from `s.strip()`. */
  lemma StripKeepsAbsent(s: string, c: char)
    requires c !in s
    ensures c !in Strip(s)
  {
    StripSpec(s);
    var r := Strip(s);
    forall k | 0 <= k < |r| ensures r[k] != c {
      assert r[k] == s[StripStart(s) + k];
    }
  }

  /** A string without a `.` contains no separator that starts with `.`. */
  lemma NoDotNoMarker(s: string)
    requires '.' !in s
    ensures !Contains(s, ".Q")
  {
    forall k | 0 <= k && k + 2 <= |s| ensures !OccursAt(s, ".Q", k) {
      assert s[k..k + 2][0] == s[k];
    }
  }

  /** A prefix of `s` that ends before `s`'s first occurrence of `sep` does not contain `sep`. */
  lemma PrefixBeforeFirst(s: string, sep: string, n: nat)
    requires 0 < |sep| && n <= |s|
    requires forall k :: 0 <= k < n ==> !OccursAt(s, sep, k)
    ensures !Contains(s[..n], sep)
  {
    var p := s[..n];
    if Contains(p, sep) {
      var k := IndexOf(p, sep).value;
      assert p[k..k + |sep|] == s[k..k + |sep|];
      assert OccursAt(s, sep, k) && k < n;
    }
  }

  /** Python's `s.split(sep)` for a non-empty separator: the pieces between the occurrences of `sep`. */
  function Split(s: string, sep: string): (r: seq<string>)
    requires |sep| > 0
    ensures |r| >= 1
    ensures |r| == 1 <==> !Contains(s, sep)
    decreases |s|
  {
    match IndexOf(s, sep)
    case None => [s]
    case Some(k) => [s[..k]] + Split(s[k + |sep|..], sep)
  }

  /** No piece of a split contains the separator. */
  lemma {:induction false} SplitPiecesLackSeparator(s: string, sep: string)
    requires |sep| > 0
    ensures forall k :: 0 <= k < |Split(s, sep)| ==> !Contains(Split(s, sep)[k], sep)
    decreases |s|
  {
    match IndexOf(s, sep)
    case None =>
    case Some(i) =>
      PrefixBeforeFirst(s, sep, i);
      SplitPiecesLackSeparator(s[i + |sep|..], sep);
  }

  /** Python's `sep.join(pieces)`. */
  function Join(pieces: seq<string>, sep: string): string
  {
    if |pieces| == 0 then ""
    else if |pieces| == 1 then pieces[0]
    else pieces[0] + sep + Join(pieces[1..], sep)
  }

  /** Joining a piece in front of at least one more piece puts the separator between them. */
  lemma JoinCons(piece: string, rest: seq<string>, sep: string)
    requires |rest| >= 1
    ensures Join([piece] + rest, sep) == piece + sep + Join(rest, sep)
  {
    assert ([piece] + rest)[1..] == rest;
  }

  /** Splitting at the first occurrence of the separator and splitting the rest. */
  lemma SplitStep(s: string, sep: string)
    requires |sep| > 0 && Contains(s, sep)
    ensures var k := IndexOf(s, sep).value;
      Split(s, sep) == [s[..k]] + Split(s[k + |sep|..], sep)
  {
  }

  /** A string is the text before an occurrence of `sep`, then `sep`, then the text after it. */
  lemma Around(s: string, sep: string, k: nat)
    requires OccursAt(s, sep, k)
    ensures s == s[..k] + sep + s[k + |sep|..]
  {
    assert s[..k] + s[k..k + |sep|] + s[k + |sep|..] == s;
  }

  /** Joining the pieces of a split with the same separator gives back the original string. */
  lemma {:induction false} JoinSplit(s: string, sep: string)
    requires |sep| > 0
    ensures Join(Split(s, sep), sep) == s
    decreases |s|
  {
    if Contains(s, sep) {
      var k := IndexOf(s, sep).value;
      var tail := s[k + |sep|..];
      JoinSplit(tail, sep);
      SplitStep(s, sep);
      JoinCons(s[..k], Split(tail, sep), sep);
      Around(s, sep, k);
    }
  }

  /** The first piece of a split is the text before the first occurrence of the separator. */
  lemma SplitHead(s: string, sep: string)
    requires |sep| > 0
    ensures Split(s, sep)[0] == (match IndexOf(s, sep) case None => s case Some(k) => s[..k])
  {
  }

  /** The second piece of a split is the text between the first and the second occurrences. */
  lemma SplitSecond(s: string, sep: string)
    requires |sep| > 0 && Contains(s, sep)
    ensures var t := s[IndexOf(s, sep).value + |sep|..];
      Split(s, sep)[1] == Split(t, sep)[0]
  {
  }

  /** Python's `s.split(sep, 1)`: at most one split, at the first occurrence of `sep`. */
  function SplitOnce(s: string, sep: string): (r: seq<string>)
    requires |sep| > 0
    ensures |r| == 1 || |r| == 2
    ensures |r| == 2 <==> Contains(s, sep)
    ensures !Contains(r[0], sep)
    ensures Join(r, sep) == s
  {
    match IndexOf(s, sep)
    case None => [s]
    case Some(k) =>
      PrefixBeforeFirst(s, sep, k);
      assert s == s[..k] + sep + s[k + |sep|..];
      [s[..k], s[k + |sep|..]]
  }

  /** The text of `s` before the first `c`, or all of `s` when there is none. */
  function Before(s: string, c: char): (r: string)
    ensures |r| <= |s| && r == s[..|r|]
    ensures c !in r
    ensures |r| < |s| ==> s[|r|] == c
  {
    if s == [] || s[0] == c then [] else [s[0]] + Before(s[1..], c)
  }

  /** The text before the first `c` ends where the first `c` is. */
  lemma {:induction false} BeforeFirst(s: string, c: char, m: nat)
    requires m < |s| && s[m] == c && forall k :: 0 <= k < m ==> s[k] != c
    ensures Before(s, c) == s[..m]
  {
    if m > 0 {
      assert s[0] != c;
      BeforeFirst(s[1..], c, m - 1);
      assert s[..m] == [s[0]] + s[1..][..m - 1];
    }
  }

  /** Truncating at a position that holds `c` does not change the text before the first `c`. */
  lemma {:induction false} BeforeTruncated(s: string, c: char, m: nat)
    requires m < |s| && s[m] == c
    ensures Before(s[..m], c) == Before(s, c)
  {
    if m > 0 && s[0] != c {
      assert s[..m][1..] == s[1..][..m - 1];
      BeforeTruncated(s[1..], c, m - 1);
    }
  }

  /** The first piece of a split on a one-character separator is the text before that character. */
  lemma {:induction false} SplitHeadChar(s: string, c: char)
    ensures Split(s, [c])[0] == Before(s, c)
    decreases |s|
  {
    var b := Before(s, c);
    if |b| < |s| {
      assert OccursAt(s, [c], |b|);
      forall k | 0 <= k < |b| ensures !OccursAt(s, [c], k) {
        assert s[k] == b[k] != c;
        assert s[k..k + 1][0] == s[k];
      }
      assert IndexOf(s, [c]) == Some(|b|);
    } else {
      assert b == s;
      ContainsChar(s, c);
      assert IndexOf(s, [c]).None?;
    }
  }

  /** Where the last path component starts: just after the last `/` before position `i`, or 0. */
  function ComponentStart(path: string, i: nat): nat
    requires i <= |path|
  {
    if i == 0 || path[i - 1] == '/' then i else ComponentStart(path, i - 1)
  }

  /** The component starts at or before `i`, right after a `/` or at 0, and holds no `/` up to `i`. */
  lemma {:induction false} ComponentStartSpec(path: string, i: nat)
    requires i <= |path|
    ensures var k := ComponentStart(path, i);
      k <= i && (k > 0 ==> path[k - 1] == '/') &&
      forall j :: k <= j < i ==> path[j] != '/'
  {
    if i > 0 && path[i - 1] != '/' {
      ComponentStartSpec(path, i - 1);
    }
  }

  /** POSIX `os.path.basename`: `p[p.rfind('/') + 1:]`. */
  function Basename(path: string): string
  {
    ComponentStartSpec(path, |path|);
    path[ComponentStart(path, |path|)..]
  }

  /** The basename is the final `/`-free part of the path, preceded by a `/` unless it is the whole path. */
  lemma BasenameIsLastComponent(path: string)
    ensures var r := Basename(path);
      |r| <= |path| && r == path[|path| - |r|..] && '/' !in r &&
      (|r| < |path| ==> path[|path| - |r| - 1] == '/')
  {
    var k := ComponentStart(path, |path|);
    ComponentStartSpec(path, |path|);
    var r := Basename(path);
    assert forall j :: 0 <= j < |r| ==> r[j] == path[k + j];
  }
}
