/**
 * Python string operations the core relies on: `str.replace`, `os.path.basename`,
 * `os.path.splitext(...)[0]` and the decimal rendering of an `int` inside an f-string.
 */
module Strings {
  import opened Wrappers

  /** `k` occurs in `s` starting at index `j`. */
  predicate MatchAt(s: string, k: string, j: int)
  {
    0 <= j && j + |k| <= |s| && s[j..j + |k|] == k
  }

  /** `k` occurs nowhere in `s`. */
  ghost predicate NoOccurrence(s: string, k: string)
  {
    forall j :: !MatchAt(s, k, j)
  }

  // ---------------------------------------------------------------------------
  // str.replace
  // ---------------------------------------------------------------------------

  /**
   * Python's `s.replace(k, n)` for a non-empty `k`: scanning left to right, every
   * occurrence of `k` that does not overlap an earlier replaced one becomes `n`.
   */
  function Replace(s: string, k: string, n: string): string
    requires k != []
    decreases |s|
  {
    if |s| < |k| then s
    else if s[..|k|] == k then n + Replace(s[|k|..], k, n)
    else [s[0]] + Replace(s[1..], k, n)
  }

  lemma MatchAtTail(s: string, k: string, j: int)
    requires |s| > 0 && j >= 0
    ensures MatchAt(s[1..], k, j) <==> MatchAt(s, k, j + 1)
  {
    if 0 <= j && j + |k| <= |s| - 1 {
      assert s[1..][j..j + |k|] == s[j + 1..j + 1 + |k|];
    }
  }

  /** Text without the keyword is left unchanged. */
  lemma {:induction false} ReplaceWithoutOccurrence(s: string, k: string, n: string)
    requires k != [] && NoOccurrence(s, k)
    ensures Replace(s, k, n) == s
  {
    if |s| >= |k| {
      assert !MatchAt(s, k, 0);
      forall j ensures !MatchAt(s[1..], k, j) {
        if j >= 0 { MatchAtTail(s, k, j); }
      }
      ReplaceWithoutOccurrence(s[1..], k, n);
    }
  }

  /** Index of the leftmost occurrence of `k` in `s`, if any. */
  function FirstOccurrence(s: string, k: string): (r: Option<nat>)
    requires k != []
    ensures r.Some? ==> MatchAt(s, k, r.value)
    decreases |s|
  {
    if |s| < |k| then None
    else if s[..|k|] == k then Some(0)
    else
      var t := FirstOccurrence(s[1..], k);
      if t.None? then None
      else
        MatchAtTail(s, k, t.value);
        Some(t.value + 1)
  }

  /** `FirstOccurrence` finds the leftmost occurrence, and finds none only when there is none. */
  lemma {:induction false} FirstOccurrenceLeftmost(s: string, k: string)
    requires k != []
    ensures var r := FirstOccurrence(s, k);
      (r.Some? ==> forall j :: 0 <= j < r.value ==> !MatchAt(s, k, j)) && (r.None? ==> NoOccurrence(s, k))
    decreases |s|
  {
    if |s| >= |k| && s[..|k|] != k {
      FirstOccurrenceLeftmost(s[1..], k);
      var t := FirstOccurrence(s[1..], k);
      assert !MatchAt(s, k, 0);
      if t.None? {
        forall j ensures !MatchAt(s, k, j) {
          if j >= 1 {
            MatchAtTail(s, k, j - 1);
          }
        }
      } else {
        forall j | 0 <= j < t.value + 1 ensures !MatchAt(s, k, j) {
          if j >= 1 {
            MatchAtTail(s, k, j - 1);
          }
        }
      }
    }
  }

  /**
   * The pieces of `s` between the leftmost non-overlapping occurrences of `k`
   * (Python's `s.split(k)`).
   */
  function Split(s: string, k: string): (parts: seq<string>)
    requires k != []
    ensures |parts| > 0
    decreases |s|
  {
    var o := FirstOccurrence(s, k);
    if o.None? then [s] else [s[..o.value]] + Split(s[o.value + |k|..], k)
  }

  /** Python's `sep.join(parts)`. */
  function Join(parts: seq<string>, sep: string): string
    requires |parts| > 0
  {
    if |parts| == 1 then parts[0] else parts[0] + sep + Join(parts[1..], sep)
  }

  lemma {:induction false} FirstOccurrenceTail(s: string, k: string)
    requires k != [] && |s| > 0
    requires |s| >= |k| ==> s[..|k|] != k
    ensures FirstOccurrence(s, k) ==
      match FirstOccurrence(s[1..], k)
      case None => None
      case Some(i) => Some(i + 1)
  {
  }

  lemma SplitAtFirst(s: string, k: string)
    requires k != []
    ensures var o := FirstOccurrence(s, k);
      o.Some? ==> Split(s, k) == [s[..o.value]] + Split(s[o.value + |k|..], k)
  {
  }

  lemma ConsSlices(s: string, i: nat, m: nat)
    requires i + 1 + m <= |s|
    ensures s[..i + 1] == [s[0]] + s[1..][..i] && s[i + 1 + m..] == s[1..][i + m..]
  {
  }

  lemma {:induction false} SplitOfPrefixed(s: string, k: string)
    requires k != [] && |s| > 0
    requires |s| >= |k| ==> s[..|k|] != k
    ensures Split(s, k) == [[s[0]] + Split(s[1..], k)[0]] + Split(s[1..], k)[1..]
  {
    FirstOccurrenceTail(s, k);
    var tail := s[1..];
    var t := FirstOccurrence(tail, k);
    if t.None? {
      assert Split(tail, k) == [tail];
      assert Split(s, k) == [s];
      assert [s[0]] + tail == s;
    } else {
      var i := t.value;
      SplitAtFirst(tail, k);
      SplitAtFirst(s, k);
      ConsSlices(s, i, |k|);
      var later := Split(tail[i + |k|..], k);
      var parts := Split(tail, k);
      assert parts == [tail[..i]] + later;
      assert parts[1..] == later;
    }
  }

  lemma JoinConsFirst(c: char, parts: seq<string>, sep: string)
    requires |parts| > 0
    ensures Join([[c] + parts[0]] + parts[1..], sep) == [c] + Join(parts, sep)
  {
    var q := [[c] + parts[0]] + parts[1..];
    if |parts| > 1 {
      assert q[1..] == parts[1..];
    }
  }

  /**
   * `Replace` agrees with the split-and-join description of `str.replace`: the text
   * between the leftmost non-overlapping occurrences is kept and each occurrence
   * becomes `n`.
   */
  lemma {:induction false} ReplaceIsJoinOfSplit(s: string, k: string, n: string)
    requires k != []
    ensures Replace(s, k, n) == Join(Split(s, k), n)
    decreases |s|
  {
    if |s| < |k| {
      assert NoOccurrence(s, k);
    } else if s[..|k|] == k {
      assert FirstOccurrence(s, k) == Some(0);
      assert s[..0] == [];
      ReplaceIsJoinOfSplit(s[|k|..], k, n);
    } else {
      ReplaceIsJoinOfSplit(s[1..], k, n);
      SplitOfPrefixed(s, k);
      JoinConsFirst(s[0], Split(s[1..], k), n);
    }
  }

  /** Splitting on `k` and joining with `k` gives the text back. */
  lemma {:induction false} JoinSplitRoundTrip(s: string, k: string)
    requires k != []
    ensures Join(Split(s, k), k) == s
    decreases |s|
  {
    match FirstOccurrence(s, k)
    case None =>
    case Some(i) =>
      JoinSplitRoundTrip(s[i + |k|..], k);
      assert s[i..i + |k|] == k;
      assert s == s[..i] + k + s[i + |k|..];
  }

  /** Replacing a keyword by itself changes nothing. */
  lemma ReplaceBySelf(s: string, k: string)
    requires k != []
    ensures Replace(s, k, k) == s
  {
    ReplaceIsJoinOfSplit(s, k, k);
    JoinSplitRoundTrip(s, k);
  }

  /**
   * Replacing one character by another is a character-wise substitution: the length
   * is kept and every other character is unchanged.
   */
  lemma {:induction false} ReplaceChar(s: string, a: char, b: char)
    ensures |Replace(s, [a], [b])| == |s|
    ensures forall i :: 0 <= i < |s| ==> Replace(s, [a], [b])[i] == if s[i] == a then b else s[i]
  {
    if |s| >= 1 {
      ReplaceChar(s[1..], a, b);
      if s[..1] == [a] {
        assert s[1..] == s[|[a]|..];
      }
    }
  }

  // ---------------------------------------------------------------------------
  // Ordering
  // ---------------------------------------------------------------------------

  /** Python's `a <= b` on strings: lexicographic by code point, a prefix coming first. */
  predicate StrLe(a: string, b: string)
    decreases |a|
  {
    a == [] || (b != [] && (a[0] < b[0] || (a[0] == b[0] && StrLe(a[1..], b[1..]))))
  }

  lemma {:induction false} StrLeTotal(a: string, b: string)
    ensures StrLe(a, b) || StrLe(b, a)
    decreases |a|
  {
    if a != [] && b != [] && a[0] == b[0] {
      StrLeTotal(a[1..], b[1..]);
    }
  }

  lemma {:induction false} StrLeTransitive(a: string, b: string, c: string)
    requires StrLe(a, b) && StrLe(b, c)
    ensures StrLe(a, c)
    decreases |a|
  {
    if a != [] && b != [] && c != [] && a[0] == b[0] && b[0] == c[0] {
      StrLeTransitive(a[1..], b[1..], c[1..]);
    }
  }

  // ---------------------------------------------------------------------------
  // Paths
  // ---------------------------------------------------------------------------

  /** POSIX `os.path.basename`: the text after the last `/`. */
  function Basename(p: string): string
  {
    if p == [] then []
    else if p[|p| - 1] == '/' then []
    else Basename(p[..|p| - 1]) + [p[|p| - 1]]
  }

  /**
   * The basename is the longest suffix without a `/`: it is a suffix of the path, holds no
   * `/`, and is either the whole path or preceded by a `/`.
   */
  lemma {:induction false} BasenameIsLastComponent(p: string)
    ensures '/' !in Basename(p)
    ensures |Basename(p)| <= |p| && Basename(p) == p[|p| - |Basename(p)|..]
    ensures |Basename(p)| < |p| ==> p[|p| - |Basename(p)| - 1] == '/'
  {
    if p != [] && p[|p| - 1] != '/' {
      var q := p[..|p| - 1];
      BasenameIsLastComponent(q);
      assert p[|p| - |Basename(p)|..] == q[|q| - |Basename(q)|..] + [p[|p| - 1]];
    }
  }

  /** Index of the last `.` in `s`, if any. */
  function LastDot(s: string): (r: Option<nat>)
    ensures r.Some? ==> r.value < |s| && s[r.value] == '.' && '.' !in s[r.value + 1..]
    ensures r.None? ==> '.' !in s
  {
    if s == [] then None
    else if s[|s| - 1] == '.' then Some(|s| - 1)
    else
      var r := LastDot(s[..|s| - 1]);
      assert s == s[..|s| - 1] + [s[|s| - 1]];
      if r.Some? then
        assert s[r.value + 1..] == s[..|s| - 1][r.value + 1..] + [s[|s| - 1]];
        r
      else r
  }

  /**
   * `os.path.splitext(b)[0]` for a basename `b`: the text before the last `.`, unless
   * that dot is preceded only by dots (a hidden file such as `.tif`), in which case
   * `b` is kept whole.
   */
  function SplitExtRoot(b: string): (r: string)
    ensures |r| <= |b| && r == b[..|r|]
    ensures |r| < |b| ==> b[|r|] == '.' && '.' !in b[|r| + 1..] && exists i :: 0 <= i < |r| && r[i] != '.'
    ensures |r| == |b| ==> '.' !in b || forall i :: 0 <= i < LastDot(b).value ==> b[i] == '.'
  {
    match LastDot(b)
    case None => b
    case Some(d) =>
      if exists i :: 0 <= i < d && b[i] != '.' then b[..d] else b
  }

  // ---------------------------------------------------------------------------
  // Decimal rendering of naturals
  // ---------------------------------------------------------------------------

  predicate IsDigit(c: char) { '0' <= c <= '9' }

  function DigitChar(d: nat): (c: char)
    requires d < 10
    ensures IsDigit(c) && c as int - '0' as int == d
  {
    (d + '0' as int) as char
  }

  /** `str(n)` for a natural `n`: its decimal digits, most significant first. */
  function NatToString(n: nat): (s: string)
    ensures |s| > 0 && forall i :: 0 <= i < |s| ==> IsDigit(s[i])
  {
    if n < 10 then [DigitChar(n)] else NatToString(n / 10) + [DigitChar(n % 10)]
  }

  /** The value of a string of decimal digits (`int(s)`). */
  function StringToNat(s: string): nat
    requires forall i :: 0 <= i < |s| ==> IsDigit(s[i])
  {
    if s == [] then 0
    else
      assert IsDigit(s[|s| - 1]);
      StringToNat(s[..|s| - 1]) * 10 + (s[|s| - 1] as int - '0' as int)
  }

  /** Reading back the decimal rendering gives the number. */
  lemma {:induction false} NatStringRoundTrip(n: nat)
    ensures StringToNat(NatToString(n)) == n
  {
    if n >= 10 {
      NatStringRoundTrip(n / 10);
      var s := NatToString(n);
      assert s[..|s| - 1] == NatToString(n / 10);
    }
  }

  /** Distinct naturals render as distinct strings. */
  lemma NatToStringInjective(a: nat, b: nat)
    ensures NatToString(a) == NatToString(b) ==> a == b
  {
    NatStringRoundTrip(a);
    NatStringRoundTrip(b);
  }
}
