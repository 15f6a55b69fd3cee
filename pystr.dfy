/**
 * The Python `str` operations the calibration scripts rely on, with their
 * Python 3 semantics: `isspace`, `strip`, `lstrip`, `startswith`, `in`,
 * `find`, `split(sep, 1)`, `split(sep)`, `split(None, 1)`, `strip(chars)`,
 * `replace` and `lower` (the last one over ASCII letters only).
 */
module PyStr {
  import opened Wrappers

  /** `c.isspace()`: the characters Python 3 treats as whitespace. */
  predicate IsSpace(c: char) {
    ('\t' <= c <= '\r') || ('\U{1C}' <= c <= '\U{1F}') || c == ' ' || c == '\U{85}' || c == '\U{A0}'
    || c == '\U{1680}' || ('\U{2000}' <= c <= '\U{200A}') || c == '\U{2028}' || c == '\U{2029}'
    || c == '\U{202F}' || c == '\U{205F}' || c == '\U{3000}'
  }

  predicate AllSpace(s: string) {
    forall i :: 0 <= i < |s| ==> IsSpace(s[i])
  }

  predicate NoSpace(s: string) {
    forall i :: 0 <= i < |s| ==> !IsSpace(s[i])
  }

  /** `s.lstrip()`: drops the leading whitespace and nothing else. */
  function LStrip(s: string): (r: string)
    ensures |r| <= |s| && r == s[|s| - |r|..]
    ensures AllSpace(s[..|s| - |r|])
    ensures r == [] || !IsSpace(r[0])
    decreases |s|
  {
    if |s| > 0 && IsSpace(s[0]) then
      var r := LStrip(s[1..]);
      assert s[..|s| - |r|] == [s[0]] + s[1..][..|s| - 1 - |r|];
      r
    else s
  }

  /** `s.rstrip()`: drops the trailing whitespace and nothing else. */
  function RStrip(s: string): (r: string)
    ensures |r| <= |s| && r == s[..|r|]
    ensures AllSpace(s[|r|..])
    ensures r == [] || !IsSpace(r[|r| - 1])
    decreases |s|
  {
    if |s| > 0 && IsSpace(s[|s| - 1]) then
      var r := RStrip(s[..|s| - 1]);
      assert s[|r|..] == s[..|s| - 1][|r|..] + [s[|s| - 1]];
      r
    else s
  }

  /** `s.strip()`: the infix of `s` between its leading and trailing whitespace. */
  function Strip(s: string): (r: string)
    ensures |r| <= |s|
    ensures r == [] || (!IsSpace(r[0]) && !IsSpace(r[|r| - 1]))
  {
    LStrip(RStrip(s))
  }

  lemma {:induction false} LStripPadded(p: string, s: string)
    requires AllSpace(p)
    requires s == [] || !IsSpace(s[0])
    ensures LStrip(p + s) == s
    decreases |p|
  {
    if p != [] {
      assert (p + s)[1..] == p[1..] + s;
      LStripPadded(p[1..], s);
    }
  }

  lemma {:induction false} RStripPadded(s: string, q: string)
    requires AllSpace(q)
    requires s == [] || !IsSpace(s[|s| - 1])
    ensures RStrip(s + q) == s
    decreases |q|
  {
    if q != [] {
      assert (s + q)[..|s + q| - 1] == s + q[..|q| - 1];
      RStripPadded(s, q[..|q| - 1]);
    }
  }

  /** Stripping removes exactly the surrounding whitespace. */
  lemma StripPadded(p: string, s: string, q: string)
    requires AllSpace(p) && AllSpace(q)
    requires s == [] || (!IsSpace(s[0]) && !IsSpace(s[|s| - 1]))
    ensures Strip(p + s + q) == s
  {
    if s == [] {
      assert p + s + q == [] + (p + q);
      RStripPadded([], p + q);
    } else {
      RStripPadded(p + s, q);
      LStripPadded(p, s);
    }
  }

  /** Stripping twice is stripping once. */
  lemma StripIdempotent(s: string)
    ensures Strip(Strip(s)) == Strip(s)
  {
    var t := Strip(s);
    StripPadded([], t, []);
    assert [] + t + [] == t;
  }

  /** `s.startswith(p)`. */
  predicate StartsWith(s: string, p: string) {
    |p| <= |s| && s[..|p|] == p
  }

  /** A string starts with whatever is put in front of it. */
  lemma StartsWithFront(p: string, a: string, b: string)
    ensures StartsWith(p + a + b, p)
  {
    assert (p + a + b)[..|p|] == p;
  }

  /** `p` occurs in `s` at index `i`. */
  predicate OccursAt(s: string, p: string, i: int) {
    0 <= i && i + |p| <= |s| && s[i..i + |p|] == p
  }

  /** `s.find(p)`: the first index at which `p` occurs, if any. */
  function Find(s: string, p: string): (r: Option<nat>)
    ensures r.Some? ==> OccursAt(s, p, r.value)
    ensures r.Some? ==> forall k :: 0 <= k < r.value ==> !OccursAt(s, p, k)
    ensures r.None? ==> forall k :: 0 <= k <= |s| ==> !OccursAt(s, p, k)
    decreases |s|
  {
    if StartsWith(s, p) then Some(0)
    else if |s| == 0 then None
    else
      var r := Find(s[1..], p);
      assert forall k :: 1 <= k <= |s| ==> (OccursAt(s, p, k) <==> OccursAt(s[1..], p, k - 1)) by {
        forall k | 1 <= k <= |s| ensures OccursAt(s, p, k) <==> OccursAt(s[1..], p, k - 1) {
          if k + |p| <= |s| {
            SliceOfTail(s, k, |p|);
          }
        }
      }
      match r
      case None => None
      case Some(i) => Some(i + 1)
  }

  /** A slice of `s` starting at `k >= 1` is the slice of `s[1..]` one place earlier. */
  lemma SliceOfTail(s: string, k: nat, n: nat)
    requires 1 <= k && k + n <= |s|
    ensures s[k..k + n] == s[1..][k - 1..k - 1 + n]
  {
    var a, b := s[k..k + n], s[1..][k - 1..k - 1 + n];
    assert |a| == |b|;
    forall j | 0 <= j < n ensures a[j] == b[j] {
      assert a[j] == s[k + j];
      assert b[j] == s[1..][k - 1 + j];
    }
  }

  /** `p in s`. */
  predicate Contains(s: string, p: string) {
    Find(s, p).Some?
  }

  /** A pattern placed between two strings occurs in the result. */
  lemma ContainsIn(a: string, p: string, b: string)
    ensures Contains(a + p + b, p)
  {
    assert (a + p + b)[|a|..|a| + |p|] == p;
    assert OccursAt(a + p + b, p, |a|);
  }

  /** Text put in front of a string keeps every pattern the string contains. */
  lemma ContainsAfterFront(a: string, s: string, p: string)
    requires Contains(s, p)
    ensures Contains(a + s, p)
  {
    var k := Find(s, p).value;
    var t := a + s;
    assert t[|a| + k..|a| + k + |p|] == s[k..k + |p|];
    assert OccursAt(t, p, |a| + k);
  }

  /** With no earlier occurrence, the occurrence at `i` is the one `find` reports. */
  lemma FindExact(s: string, p: string, i: nat)
    requires OccursAt(s, p, i)
    requires forall k :: 0 <= k < i ==> !OccursAt(s, p, k)
    ensures Find(s, p) == Some(i)
  {
  }

  /** A character absent from `a` is first found right after `a`. */
  lemma FindAfterPrefix(a: string, c: char, b: string)
    requires c !in a
    ensures Find(a + [c] + b, [c]) == Some(|a|)
  {
    var s := a + [c] + b;
    assert s[|a|..|a| + 1] == [c];
    forall k | 0 <= k < |a| ensures !OccursAt(s, [c], k) {
      assert s[k..k + 1] == [s[k]] && s[k] == a[k];
    }
    FindExact(s, [c], |a|);
  }

  /** A pattern whose first character does not recur in it is first found right after a prefix free of it. */
  lemma FindAfterBase(base: string, p: string, rest: string)
    requires |p| > 0 && p[0] !in p[1..]
    requires !Contains(base, p)
    ensures Find(base + p + rest, p) == Some(|base|)
  {
    var s := base + p + rest;
    assert s[|base|..|base| + |p|] == p;
    forall k | 0 <= k < |base| ensures !OccursAt(s, p, k) {
      if k + |p| <= |base| {
        assert s[k..k + |p|] == base[k..k + |p|];
        assert !OccursAt(base, p, k);
      } else {
        var j := |base| - k;
        assert s[k + j] == p[0];
        assert p[j] == p[1..][j - 1];
        assert s[k..k + |p|][j] != p[j];
      }
    }
    FindExact(s, p, |base|);
  }

  /** A character that does not occur is not found. */
  lemma FindAbsentChar(s: string, c: char)
    requires c !in s
    ensures Find(s, [c]) == None
  {
    forall k | 0 <= k <= |s| ensures !OccursAt(s, [c], k) {
      if k < |s| {
        assert s[k..k + 1] == [s[k]];
      }
    }
  }

  /** `s.split(p, 1)[0]`, which is also `s.split(p)[0]`: the text before the first `p`. */
  function Before(s: string, p: string): (r: string)
    requires |p| > 0
    ensures StartsWith(s, r)
    ensures !Contains(s, p) ==> r == s
    ensures Contains(s, p) ==> OccursAt(s, p, |r|) && forall k :: 0 <= k < |r| ==> !OccursAt(s, p, k)
  {
    match Find(s, p)
    case Some(i) => s[..i]
    case None => s
  }

  /** `s.split(p, 1)[1]`: the text after the first `p`; `None` is the IndexError case. */
  function After(s: string, p: string): (r: Option<string>)
    requires |p| > 0
    ensures r.Some? <==> Contains(s, p)
    ensures r.Some? ==> s == Before(s, p) + p + r.value
  {
    match Find(s, p)
    case Some(i) =>
      assert s == s[..i] + s[i..i + |p|] + s[i + |p|..];
      Some(s[i + |p|..])
    case None => None
  }

  /** Splitting on the first `c` of a string whose head has no `c`. */
  lemma SplitAtFirst(a: string, c: char, b: string)
    requires c !in a
    ensures Before(a + [c] + b, [c]) == a
    ensures After(a + [c] + b, [c]) == Some(b)
  {
    FindAfterPrefix(a, c, b);
    assert (a + [c] + b)[..|a|] == a;
    assert (a + [c] + b)[|a| + 1..] == b;
  }

  /** Splitting on a character that does not occur. */
  lemma SplitAbsent(s: string, c: char)
    requires c !in s
    ensures Before(s, [c]) == s
    ensures After(s, [c]) == None
  {
    FindAbsentChar(s, c);
  }

  /** The parts `s.split(c)` joins back with `c`. */
  function Join(parts: seq<string>, c: char): string
    requires |parts| >= 1
  {
    if |parts| == 1 then parts[0] else parts[0] + [c] + Join(parts[1..], c)
  }

  /** `s.split(c)` for a one-character separator: the maximal `c`-free pieces, in order. */
  function Split(s: string, c: char): (r: seq<string>)
    ensures |r| >= 1
    ensures forall i :: 0 <= i < |r| ==> c !in r[i]
    ensures Join(r, c) == s
    decreases |s|
  {
    if |s| == 0 then [""]
    else
      var rest := Split(s[1..], c);
      if s[0] == c then
        assert ([""] + rest)[1..] == rest;
        assert s == [c] + s[1..];
        [""] + rest
      else
        var r := [[s[0]] + rest[0]] + rest[1..];
        assert r[1..] == rest[1..];
        assert s == [s[0]] + s[1..];
        assert Join(r, c) == s by {
          if |rest| > 1 {
            assert Join(r, c) == [s[0]] + rest[0] + [c] + Join(rest[1..], c);
          }
        }
        r
  }

  /** A string without the separator splits into itself. */
  lemma {:induction false} SplitNoSeparator(a: string, c: char)
    requires c !in a
    ensures Split(a, c) == [a]
    decreases |a|
  {
    if a != [] {
      SplitNoSeparator(a[1..], c);
      assert [a[0]] + a[1..] == a;
    }
  }

  /** The first piece of a split is the text before the first separator. */
  lemma {:induction false} SplitFirst(a: string, c: char, b: string)
    requires c !in a
    ensures Split(a + [c] + b, c) == [a] + Split(b, c)
    decreases |a|
  {
    var s := a + [c] + b;
    if a == [] {
      assert s[1..] == b;
    } else {
      assert s[1..] == a[1..] + [c] + b;
      SplitFirst(a[1..], c, b);
      assert [a[0]] + a[1..] == a;
    }
  }

  /** `c.join(parts).split(c) == parts` for separator-free parts. */
  lemma {:induction false} SplitJoin(parts: seq<string>, c: char)
    requires |parts| >= 1 && forall i :: 0 <= i < |parts| ==> c !in parts[i]
    ensures Split(Join(parts, c), c) == parts
    decreases |parts|
  {
    if |parts| == 1 {
      SplitNoSeparator(parts[0], c);
    } else {
      assert forall i :: 0 <= i < |parts| - 1 ==> parts[1..][i] == parts[i + 1];
      SplitJoin(parts[1..], c);
      SplitFirst(parts[0], c, Join(parts[1..], c));
      assert [parts[0]] + parts[1..] == parts;
    }
  }

  /** The longest space-free prefix of `s`. */
  function TakeWord(s: string): (r: string)
    ensures StartsWith(s, r) && NoSpace(r)
    ensures |r| < |s| ==> IsSpace(s[|r|])
    decreases |s|
  {
    if |s| == 0 || IsSpace(s[0]) then [] else [s[0]] + TakeWord(s[1..])
  }

  lemma {:induction false} TakeWordOf(w: string, t: string)
    requires NoSpace(w)
    requires t == [] || IsSpace(t[0])
    ensures TakeWord(w + t) == w
    decreases |w|
  {
    if w != [] {
      assert (w + t)[1..] == w[1..] + t;
      TakeWordOf(w[1..], t);
    }
  }

  /** `s.split(None, 1)`: the first whitespace-separated word, then the rest with its leading whitespace removed. */
  function SplitWsOnce(s: string): (r: seq<string>)
    ensures |r| <= 2
    ensures |r| >= 1 ==> r[0] != [] && NoSpace(r[0])
    ensures |r| == 2 ==> r[1] != [] && !IsSpace(r[1][0])
  {
    var t := LStrip(s);
    if t == [] then []
    else
      var w := TakeWord(t);
      assert w != [] by { assert !IsSpace(t[0]); }
      var rest := LStrip(t[|w|..]);
      if rest == [] then [w] else [w, rest]
  }

  /** Splitting `key + gap + value` on whitespace once gives back the key and the value. */
  lemma {:induction false} SplitWsOnceOf(key: string, gap: string, value: string)
    requires key != [] && NoSpace(key)
    requires gap != [] && AllSpace(gap)
    requires value != [] && !IsSpace(value[0])
    ensures SplitWsOnce(key + gap + value) == [key, value]
  {
    var s := key + gap + value;
    LStripPadded([], s);
    assert [] + s == s;
    assert s == key + (gap + value);
    TakeWordOf(key, gap + value);
    assert s[|key|..] == gap + value;
    LStripPadded(gap, value);
  }

  /** `s.lstrip(chars)` for a single character. */
  function LStripChar(s: string, c: char): (r: string)
    ensures |r| <= |s| && r == s[|s| - |r|..]
    ensures r == [] || r[0] != c
    decreases |s|
  {
    if |s| > 0 && s[0] == c then LStripChar(s[1..], c) else s
  }

  /** `s.rstrip(chars)` for a single character. */
  function RStripChar(s: string, c: char): (r: string)
    ensures |r| <= |s| && r == s[..|r|]
    ensures r == [] || r[|r| - 1] != c
    decreases |s|
  {
    if |s| > 0 && s[|s| - 1] == c then RStripChar(s[..|s| - 1], c) else s
  }

  /** `s.strip(c)`. */
  function StripChar(s: string, c: char): (r: string)
    ensures |r| <= |s|
    ensures r == [] || (r[0] != c && r[|r| - 1] != c)
  {
    var x := RStripChar(s, c);
    var r := LStripChar(x, c);
    assert r != [] ==> r[|r| - 1] == x[|x| - 1];
    r
  }

  /** Stripping quotes removes exactly one enclosing pair from a value that has no others at its ends. */
  lemma StripCharEnclosed(c: char, v: string)
    requires v != [] && v[0] != c && v[|v| - 1] != c
    ensures StripChar([c] + v + [c], c) == v
  {
    var s := [c] + v + [c];
    assert s[..|s| - 1] == [c] + v;
    assert RStripChar([c] + v, c) == [c] + v;
    assert RStripChar(s, c) == [c] + v;
    assert ([c] + v)[1..] == v;
    assert LStripChar(v, c) == v;
  }

  /** Occurrences in the tail of `s` are the occurrences in `s` shifted by one. */
  lemma OccursAtTail(s: string, p: string, k: int)
    requires |s| > 0 && 0 <= k
    ensures OccursAt(s[1..], p, k) <==> OccursAt(s, p, k + 1)
  {
    if k + 1 + |p| <= |s| {
      assert s[k + 1..k + 1 + |p|] == s[1..][k..k + |p|];
    }
  }

  /** `s.replace(pat, rep)`: every non-overlapping occurrence of `pat`, scanning left to right. */
  function ReplaceAll(s: string, pat: string, rep: string): string
    requires |pat| > 0
    decreases |s|
  {
    if StartsWith(s, pat) then rep + ReplaceAll(s[|pat|..], pat, rep)
    else if s == [] then []
    else [s[0]] + ReplaceAll(s[1..], pat, rep)
  }

  /** `replace` leaves a string without an occurrence of `pat` unchanged. */
  lemma {:induction false} ReplaceAbsent(s: string, pat: string, rep: string)
    requires |pat| > 0
    requires !Contains(s, pat)
    ensures ReplaceAll(s, pat, rep) == s
    decreases |s|
  {
    assert !OccursAt(s, pat, 0);
    if s != [] {
      forall k | 0 <= k <= |s[1..]| ensures !OccursAt(s[1..], pat, k) {
        OccursAtTail(s, pat, k);
      }
      ReplaceAbsent(s[1..], pat, rep);
    }
  }

  /** `replace` copies the characters before the first occurrence unchanged. */
  lemma {:induction false} ReplaceSkip(s: string, pat: string, rep: string, n: nat)
    requires |pat| > 0 && n <= |s|
    requires forall k :: 0 <= k < n ==> !OccursAt(s, pat, k)
    ensures ReplaceAll(s, pat, rep) == s[..n] + ReplaceAll(s[n..], pat, rep)
    decreases n
  {
    if n > 0 {
      assert !OccursAt(s, pat, 0);
      forall k | 0 <= k < n - 1 ensures !OccursAt(s[1..], pat, k) {
        OccursAtTail(s, pat, k);
      }
      ReplaceSkip(s[1..], pat, rep, n - 1);
      assert s[1..][n - 1..] == s[n..];
      assert s[..n] == [s[0]] + s[1..][..n - 1];
      assert ReplaceAll(s, pat, rep) == [s[0]] + ReplaceAll(s[1..], pat, rep);
      ConcatAssoc(ReplaceAll(s, pat, rep), [s[0]], ReplaceAll(s[1..], pat, rep), s[1..][..n - 1], ReplaceAll(s[n..], pat, rep));
    }
  }

  lemma ReplaceAtStart(s: string, pat: string, rep: string, i: nat)
    requires |pat| > 0 && OccursAt(s, pat, i)
    ensures ReplaceAll(s[i..], pat, rep) == rep + ReplaceAll(s[i + |pat|..], pat, rep)
  {
    var t := s[i..];
    assert StartsWith(t, pat) by {
      assert t[..|pat|] == s[i..i + |pat|];
    }
    assert t[|pat|..] == s[i + |pat|..];
  }

  /** `replace` substitutes the first occurrence and carries on after it. */
  lemma ReplaceFirst(s: string, pat: string, rep: string, i: nat)
    requires |pat| > 0
    requires Find(s, pat) == Some(i)
    ensures ReplaceAll(s, pat, rep) == s[..i] + rep + ReplaceAll(s[i + |pat|..], pat, rep)
  {
    assert OccursAt(s, pat, i) && forall k :: 0 <= k < i ==> !OccursAt(s, pat, k);
    ReplaceSkip(s, pat, rep, i);
    ReplaceAtStart(s, pat, rep, i);
    ConcatAssoc(ReplaceAll(s, pat, rep), s[..i], ReplaceAll(s[i..], pat, rep), rep, ReplaceAll(s[i + |pat|..], pat, rep));
  }

  /** Substituting a concatenation into a concatenation. */
  lemma ConcatAssoc(x: string, a: string, y: string, b: string, t: string)
    requires x == a + y && y == b + t
    ensures x == a + b + t
  {
  }

  /** A `pat` that occurs once is replaced in place and the rest of the string is kept. */
  lemma ReplaceOnce(s: string, pat: string, rep: string, i: nat)
    requires |pat| > 0
    requires Find(s, pat) == Some(i)
    requires !Contains(s[i + |pat|..], pat)
    ensures ReplaceAll(s, pat, rep) == s[..i] + rep + s[i + |pat|..]
  {
    ReplaceFirst(s, pat, rep, i);
    ReplaceAbsent(s[i + |pat|..], pat, rep);
  }

  lemma OccursAtShift(s: string, p: string, n: nat, k: nat)
    requires n <= |s|
    ensures OccursAt(s[n..], p, k) <==> OccursAt(s, p, n + k)
  {
    if n + k + |p| <= |s| {
      assert s[n..][k..k + |p|] == s[n + k..n + k + |p|];
    }
  }

  /** A `pat` occurring at exactly one position is replaced there and nowhere else. */
  lemma ReplaceUnique(s: string, pat: string, rep: string, i: nat)
    requires |pat| > 0 && OccursAt(s, pat, i)
    requires forall k :: OccursAt(s, pat, k) ==> k == i
    ensures ReplaceAll(s, pat, rep) == s[..i] + rep + s[i + |pat|..]
  {
    FindExact(s, pat, i);
    var tail := s[i + |pat|..];
    forall k: nat | k <= |tail| ensures !OccursAt(tail, pat, k) {
      OccursAtShift(s, pat, i + |pat|, k);
    }
    ReplaceOnce(s, pat, rep, i);
  }

  /** A `pat` that occurs at exactly two places is replaced at both and the text around them is kept. */
  lemma ReplaceTwo(a: string, pat: string, b: string, c: string, rep: string)
    requires |pat| > 0
    requires forall k :: OccursAt(a + pat + b + pat + c, pat, k) ==> k == |a| || k == |a| + |pat| + |b|
    ensures ReplaceAll(a + pat + b + pat + c, pat, rep) == a + rep + b + rep + c
  {
    var s := a + pat + b + pat + c;
    var t := b + pat + c;
    ReplaceTwoHead(a, pat, b, c, rep);
    ReplaceTwoTail(a, pat, b, c, rep);
    ConcatAssoc(ReplaceAll(s, pat, rep), a + rep, ReplaceAll(t, pat, rep), b + rep, c);
    assert a + rep + (b + rep) + c == a + rep + b + rep + c;
  }

  lemma ReplaceTwoHead(a: string, pat: string, b: string, c: string, rep: string)
    requires |pat| > 0
    requires forall k :: OccursAt(a + pat + b + pat + c, pat, k) ==> k == |a| || k == |a| + |pat| + |b|
    ensures ReplaceAll(a + pat + b + pat + c, pat, rep) == a + rep + ReplaceAll(b + pat + c, pat, rep)
  {
    var s := a + pat + b + pat + c;
    TwoParts(a, pat, b, c);
    FindExact(s, pat, |a|);
    ReplaceFirst(s, pat, rep, |a|);
  }

  lemma ReplaceTwoTail(a: string, pat: string, b: string, c: string, rep: string)
    requires |pat| > 0
    requires forall k :: OccursAt(a + pat + b + pat + c, pat, k) ==> k == |a| || k == |a| + |pat| + |b|
    ensures ReplaceAll(b + pat + c, pat, rep) == b + rep + c
  {
    var s := a + pat + b + pat + c;
    var n := |a| + |pat|;
    var t := b + pat + c;
    TwoParts(a, pat, b, c);
    forall k | OccursAt(t, pat, k) ensures k == |b| {
      OccursAtShift(s, pat, n, k);
    }
    ReplaceUnique(t, pat, rep, |b|);
  }

  lemma TwoParts(a: string, pat: string, b: string, c: string)
    ensures var s := a + pat + b + pat + c; var t := b + pat + c;
      s[|a|..|a| + |pat|] == pat && s[..|a|] == a && s[|a| + |pat|..] == t &&
      t[|b|..|b| + |pat|] == pat && t[..|b|] == b && t[|b| + |pat|..] == c
  {
  }

  /** A `pat` that occurs only between `a` and `b` is replaced there. */
  lemma ReplaceField(s: string, a: string, pat: string, b: string, rep: string)
    requires |pat| > 0 && s == a + pat + b
    requires forall k :: OccursAt(s, pat, k) ==> k == |a|
    ensures ReplaceAll(s, pat, rep) == a + rep + b
  {
    assert s[|a|..|a| + |pat|] == pat;
    ReplaceUnique(s, pat, rep, |a|);
    assert s[..|a|] == a && s[|a| + |pat|..] == b;
  }

  /** Replacing a string with itself changes nothing. */
  lemma {:induction false} ReplaceSelf(s: string, pat: string)
    requires |pat| > 0
    ensures ReplaceAll(s, pat, pat) == s
    decreases |s|
  {
    if StartsWith(s, pat) {
      ReplaceSelf(s[|pat|..], pat);
      assert s == s[..|pat|] + s[|pat|..];
    } else if s != [] {
      ReplaceSelf(s[1..], pat);
      assert s == [s[0]] + s[1..];
    }
  }

  /** `c.lower()` for ASCII letters; every other character is kept. */
  function LowerChar(c: char): char {
    if 'A' <= c <= 'Z' then ((c as int) + 32) as char else c
  }

  /** `s.lower()` restricted to ASCII case folding. */
  function Lower(s: string): (r: string)
    ensures |r| == |s|
    ensures forall i :: 0 <= i < |s| ==> r[i] == LowerChar(s[i])
  {
    seq(|s|, i requires 0 <= i < |s| => LowerChar(s[i]))
  }

  predicate IsDigit(c: char) {
    '0' <= c <= '9'
  }

  predicate AllDigits(s: string) {
    forall i :: 0 <= i < |s| ==> IsDigit(s[i])
  }
}
