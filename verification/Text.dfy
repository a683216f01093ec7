/**
 * The handful of Python string operations the interpreter relies on, with
 * Python's semantics: `str.strip`, `startswith`, `endswith`, `in`,
 * `str.split(sep)`, `sep.join(parts)` and slicing with negative bounds.
 */
module Text {

  datatype Option<T> = None | Some(value: T)

  /** The fixed whitespace set used for trimming: the ASCII characters Python's
      `str.isspace` accepts (space, tab, line feed, vertical tab, form feed,
      carriage return and the four information separators 0x1C-0x1F). */
  predicate IsWhitespace(c: char) {
    c == ' ' || c == '\t' || c == '\n' || c == '\r' ||
    0x0B <= c as int <= 0x0C || 0x1C <= c as int <= 0x1F
  }

  predicate AllWhitespace(s: string) {
    forall i :: 0 <= i < |s| ==> IsWhitespace(s[i])
  }

  /** Neither end of `s` is whitespace. */
  predicate IsTrimmed(s: string) {
    s == [] || (!IsWhitespace(s[0]) && !IsWhitespace(s[|s| - 1]))
  }

  /** Every character of `r` occurs in `s`. */
  predicate CharsFrom(r: string, s: string) {
    forall c :: c in r ==> c in s
  }

  /** The end of the run of whitespace that starts at index `i`. */
  function SkipWhitespace(s: string, i: nat): (n: nat)
    requires i <= |s|
    ensures i <= n <= |s|
    ensures forall j :: i <= j < n ==> IsWhitespace(s[j])
    ensures n == |s| || !IsWhitespace(s[n])
    decreases |s| - i
  {
    if i < |s| && IsWhitespace(s[i]) then SkipWhitespace(s, i + 1) else i
  }

  /** The start of the run of whitespace that ends at index `j`, not going
      below `lo`. */
  function BackWhitespace(s: string, lo: nat, j: nat): (n: nat)
    requires lo <= j <= |s|
    ensures lo <= n <= j
    ensures forall k :: n <= k < j ==> IsWhitespace(s[k])
    ensures n == lo || !IsWhitespace(s[n - 1])
    decreases j
  {
    if j > lo && IsWhitespace(s[j - 1]) then BackWhitespace(s, lo, j - 1) else j
  }

  /** Python's `s.strip()` over the fixed whitespace set: leading and trailing
      whitespace removed. `TrimUnique` below characterises it. */
  function Trim(s: string): (r: string)
    ensures IsTrimmed(r)
    ensures CharsFrom(r, s)
  {
    var a := SkipWhitespace(s, 0);
    var b := BackWhitespace(s, a, |s|);
    s[a..b]
  }

  /** Python's `s.startswith(p)`. */
  predicate StartsWith(s: string, p: string) {
    |p| <= |s| && s[..|p|] == p
  }

  /** Python's `s.endswith(p)`. */
  predicate EndsWith(s: string, p: string) {
    |p| <= |s| && s[|s| - |p|..] == p
  }

  /** `pat` occurs in `s` starting at index `i`. */
  predicate Occurs(s: string, pat: string, i: int) {
    0 <= i && i + |pat| <= |s| && s[i..i + |pat|] == pat
  }

  /** The first occurrence of `pat` in `s` at or after index `k`. */
  function FindFrom(s: string, pat: string, k: nat): (r: Option<nat>)
    ensures r.Some? ==> k <= r.value && Occurs(s, pat, r.value)
    ensures forall j :: k <= j && (r.None? || j < r.value) ==> !Occurs(s, pat, j)
    decreases |s| - k
  {
    if k + |pat| > |s| then None
    else if s[k..k + |pat|] == pat then Some(k)
    else FindFrom(s, pat, k + 1)
  }

  /** Python's `pat in s`. */
  predicate Contains(s: string, pat: string) {
    FindFrom(s, pat, 0).Some?
  }

  /** Python's `s.split(sep)` for a non-empty separator: the pieces between the
      non-overlapping occurrences of `sep`, scanned from the left. */
  function Split(s: string, sep: string): (parts: seq<string>)
    requires |sep| > 0
    ensures |parts| >= 1
    decreases |s|
  {
    match FindFrom(s, sep, 0)
    case None => [s]
    case Some(k) => [s[..k]] + Split(s[k + |sep|..], sep)
  }

  /** The pieces of a split contain no separator, and no character that was
      not in the string. */
  lemma {:induction false} SplitPieces(s: string, sep: string)
    requires |sep| > 0
    ensures forall i, j :: 0 <= i < |Split(s, sep)| ==> !Occurs(Split(s, sep)[i], sep, j)
    ensures forall i :: 0 <= i < |Split(s, sep)| ==> CharsFrom(Split(s, sep)[i], s)
    decreases |s|
  {
    match FindFrom(s, sep, 0)
    case None =>
    case Some(k) =>
      var rest := s[k + |sep|..];
      SplitPieces(rest, sep);
      assert forall j :: !Occurs(s[..k], sep, j) by {
        forall j | Occurs(s[..k], sep, j) ensures false {
          assert s[..k][j..j + |sep|] == s[j..j + |sep|];
          assert Occurs(s, sep, j);
        }
      }
      var parts := Split(s, sep);
      assert parts == [s[..k]] + Split(rest, sep);
      forall i | 0 <= i < |parts| ensures CharsFrom(parts[i], s) {
        if i > 0 {
          assert parts[i] == Split(rest, sep)[i - 1];
        }
      }
  }

  /** Python's `sep.join(parts)`. */
  function Join(parts: seq<string>, sep: string): string
  {
    if |parts| == 0 then ""
    else if |parts| == 1 then parts[0]
    else parts[0] + sep + Join(parts[1..], sep)
  }

  /** Python's index normalisation for a slice bound over a sequence of length `n`:
      a negative bound counts from the end, and the result is clamped to [0, n]. */
  function SliceBound(i: int, n: nat): (r: nat)
    ensures r <= n
    ensures 0 <= i <= n ==> r == i
    ensures i < 0 <= n + i ==> r == n + i
  {
    if i < 0 then (if n + i < 0 then 0 else n + i)
    else if i > n then n
    else i
  }

  /** Python's `s[start:stop]`: empty when the normalised bounds cross. */
  function Slice<T>(s: seq<T>, start: int, stop: int): seq<T>
  {
    var lo := SliceBound(start, |s|);
    var hi := SliceBound(stop, |s|);
    if lo < hi then s[lo..hi] else []
  }

  /** `s[k:-2]`, the slice the interpreter uses to cut a statement's payload,
      drops the first `k` and the last two elements, and is empty when
      those overlap. */
  lemma SliceDropsEnds<T>(s: seq<T>, k: nat)
    ensures Slice(s, k, -2) == if k + 2 <= |s| then s[k..|s| - 2] else []
    ensures multiset(Slice(s, k, -2)) <= multiset(s)
  {
    if k + 2 <= |s| {
      assert s == s[..k] + s[k..|s| - 2] + s[|s| - 2..];
    }
  }

  /** Trimming is characterised independently of its definition: any string
      made of whitespace, a trimmed core and whitespace trims to that core. */
  lemma TrimUnique(w1: string, t: string, w2: string)
    requires AllWhitespace(w1) && AllWhitespace(w2) && IsTrimmed(t)
    ensures Trim(w1 + t + w2) == t
  {
    var s := w1 + t + w2;
    var a := SkipWhitespace(s, 0);
    if t == [] {
      assert forall k :: 0 <= k < |s| ==> IsWhitespace(s[k]) by {
        forall k | 0 <= k < |s| ensures IsWhitespace(s[k]) {
          if k < |w1| { assert s[k] == w1[k]; } else { assert s[k] == w2[k - |w1|]; }
        }
      }
      assert a == |s|;
    } else {
      assert s[|w1|] == t[0];
      assert forall k :: 0 <= k < |w1| ==> s[k] == w1[k];
      assert a == |w1|;
      var e := |w1| + |t|;
      assert s[e - 1] == t[|t| - 1];
      assert forall k :: e <= k < |s| ==> s[k] == w2[k - e];
      assert BackWhitespace(s, a, |s|) == e;
      assert s[a..e] == t;
    }
  }

  /** Trimming twice is trimming once. */
  lemma TrimIdempotent(s: string)
    ensures Trim(Trim(s)) == Trim(s)
  {
    TrimTrimmed(Trim(s));
  }

  /** A trimmed string is its own trim. */
  lemma TrimTrimmed(t: string)
    requires IsTrimmed(t)
    ensures Trim(t) == t
  {
    TrimUnique([], t, []);
    assert [] + t + [] == t;
  }

  /** `(p + x + cut)[len(p):-2]` is `x` when `cut` has two elements. */
  lemma SliceBetween<T>(p: seq<T>, x: seq<T>, cut: seq<T>)
    requires |cut| == 2
    ensures Slice(p + x + cut, |p|, -2) == x
  {
    var s := p + x + cut;
    SliceDropsEnds(s, |p|);
    assert s[|p|..|s| - 2] == x;
  }

  /** Joining the pieces of a split with the same separator gives back the
      original string. */
  lemma {:induction false} JoinSplit(s: string, sep: string)
    requires |sep| > 0
    ensures Join(Split(s, sep), sep) == s
    decreases |s|
  {
    match FindFrom(s, sep, 0)
    case None =>
    case Some(k) =>
      var rest := s[k + |sep|..];
      var tail := Split(rest, sep);
      assert Split(s, sep) == [s[..k]] + tail;
      JoinSplit(rest, sep);
      JoinCons(s[..k], tail, sep);
      assert s == s[..k] + sep + rest;
  }

  lemma JoinCons(x: string, tail: seq<string>, sep: string)
    requires |tail| >= 1
    ensures Join([x] + tail, sep) == x + sep + Join(tail, sep)
  {
    assert ([x] + tail)[1..] == tail;
  }

  /** Conversely, splitting on a one-character separator recovers any
      non-empty list of pieces that do not contain it. */
  lemma {:induction false} SplitJoin(parts: seq<string>, c: char)
    requires |parts| > 0
    requires forall i :: 0 <= i < |parts| ==> c !in parts[i]
    ensures Split(Join(parts, [c]), [c]) == parts
    decreases |parts|
  {
    var s := Join(parts, [c]);
    if |parts| == 1 {
      NoCharNoOccurrence(parts[0], c);
    } else {
      var rest := Join(parts[1..], [c]);
      assert s == parts[0] + [c] + rest;
      assert Occurs(s, [c], |parts[0]|) by {
        assert s[|parts[0]|..|parts[0]| + 1] == [c];
      }
      forall j | 0 <= j < |parts[0]| ensures !Occurs(s, [c], j) {
        assert s[j] == parts[0][j];
      }
      assert FindFrom(s, [c], 0) == Some(|parts[0]|);
      assert s[..|parts[0]|] == parts[0];
      assert s[|parts[0]| + 1..] == rest;
      SplitJoin(parts[1..], c);
    }
  }

  lemma NoCharNoOccurrence(s: string, c: char)
    requires c !in s
    ensures FindFrom(s, [c], 0).None?
  {
    forall j | 0 <= j < |s| ensures !Occurs(s, [c], j) {
      assert s[j] != c;
    }
  }
}
