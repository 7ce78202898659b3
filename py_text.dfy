/**
 * The Python string operations the backend relies on, written out with
 * Python's own semantics: `str.isspace`, `strip`, `split(sep)`, `sep.join`,
 * `replace(pat, "")`, `find`/`rfind`, slices with negative and out-of-range
 * bounds, ASCII `lower` and `str(n)` for natural numbers.
 */
module PyText {

  /** Python's `str.isspace` for a single character. */
  predicate IsSpace(c: char) {
    || c == ' ' || c == '\t' || c == '\n' || c == '\r'
    || c == '\U{b}' || c == '\U{c}'
    || ('\U{1c}' <= c <= '\U{1f}')
    || c == '\U{85}' || c == '\U{a0}' || c == '\U{1680}'
    || ('\U{2000}' <= c <= '\U{200a}')
    || c == '\U{2028}' || c == '\U{2029}' || c == '\U{202f}' || c == '\U{205f}' || c == '\U{3000}'
  }

  /** `not s.strip()`: the string is empty or made of whitespace only. */
  predicate IsBlank(s: string) {
    forall i :: 0 <= i < |s| ==> IsSpace(s[i])
  }

  /** What `strip()` can return: empty, or neither starting nor ending with whitespace. */
  predicate Stripped(s: string) {
    s == [] || (!IsSpace(s[0]) && !IsSpace(s[|s| - 1]))
  }

  /** `t` occurs in `s` starting at index `k`. */
  predicate OccursAt(s: string, t: string, k: int) {
    0 <= k && k + |t| <= |s| && s[k..k + |t|] == t
  }

  /** `t` occurs in `s` as a contiguous piece (Python's `t in s`). */
  predicate Contains(s: string, t: string) {
    exists k | 0 <= k <= |s| - |t| :: OccursAt(s, t, k)
  }

  lemma BlankConcat(a: string, b: string)
    ensures IsBlank(a + b) <==> IsBlank(a) && IsBlank(b)
  {
    if IsBlank(a) && IsBlank(b) {
      forall i | 0 <= i < |a + b| ensures IsSpace((a + b)[i]) {
        if i >= |a| { assert (a + b)[i] == b[i - |a|]; }
      }
    }
    if IsBlank(a + b) {
      forall i | 0 <= i < |b| ensures IsSpace(b[i]) { assert (a + b)[|a| + i] == b[i]; }
      forall i | 0 <= i < |a| ensures IsSpace(a[i]) { assert (a + b)[i] == a[i]; }
    }
  }

  // ---------------------------------------------------------------------
  // strip()

  /** Index of the first non-whitespace character at or after `i` (`|s|` when there is none). */
  function SkipSpaces(s: string, i: nat): (n: nat)
    requires i <= |s|
    ensures i <= n <= |s|
    ensures forall m | i <= m < n :: IsSpace(s[m])
    ensures n < |s| ==> !IsSpace(s[n])
    decreases |s| - i
  {
    if i < |s| && IsSpace(s[i]) then SkipSpaces(s, i + 1) else i
  }

  /** Index just after the last non-whitespace character before `j` (0 when there is none). */
  function SkipSpacesBack(s: string, j: nat): (n: nat)
    requires j <= |s|
    ensures n <= j
    ensures forall m | n <= m < j :: IsSpace(s[m])
    ensures n > 0 ==> !IsSpace(s[n - 1])
  {
    if j > 0 && IsSpace(s[j - 1]) then SkipSpacesBack(s, j - 1) else j
  }

  /** Python's `s.strip()`. */
  function Strip(s: string): (r: string)
    ensures Stripped(r)
    ensures |r| <= |s|
    ensures r == [] <==> IsBlank(s)
  {
    var b := SkipSpaces(s, 0);
    var e := SkipSpacesBack(s, |s|);
    if b < e then s[b..e] else []
  }

  /** The two cut points of `strip()`: `s` is whitespace before `b` and from `e` on, and the rest is the result. */
  lemma StripFrame(s: string) returns (b: nat, e: nat)
    ensures b <= e <= |s|
    ensures Strip(s) == s[b..e]
    ensures forall m | 0 <= m < b :: IsSpace(s[m])
    ensures forall m | e <= m < |s| :: IsSpace(s[m])
  {
    b := SkipSpaces(s, 0);
    e := SkipSpacesBack(s, |s|);
    if e <= b {
      b, e := |s|, |s|;
    }
  }

  lemma SkipSpacesOf(s: string, i: nat, n: nat)
    requires i <= n <= |s|
    requires forall m | i <= m < n :: IsSpace(s[m])
    requires n < |s| ==> !IsSpace(s[n])
    ensures SkipSpaces(s, i) == n
    decreases n - i
  {
    if i < n {
      SkipSpacesOf(s, i + 1, n);
    }
  }

  lemma SkipSpacesBackOf(s: string, j: nat, n: nat)
    requires n <= j <= |s|
    requires forall m | n <= m < j :: IsSpace(s[m])
    requires n > 0 ==> !IsSpace(s[n - 1])
    ensures SkipSpacesBack(s, j) == n
    decreases j - n
  {
    if n < j {
      SkipSpacesBackOf(s, j - 1, n);
    }
  }

  /**
   * `strip()` is characterised by its result: whatever blank text surrounds
   * a stripped string, stripping gives that string back.
   */
  lemma StripOf(a: string, r: string, z: string)
    requires IsBlank(a) && IsBlank(z) && Stripped(r)
    ensures Strip(a + r + z) == r
  {
    var s := a + r + z;
    if r == [] {
      assert s == a + z;
      BlankConcat(a, z);
    } else {
      var b := |a|;
      var e := |a| + |r|;
      forall m | 0 <= m < b ensures IsSpace(s[m]) {
        assert s[m] == a[m];
      }
      assert s[b] == r[0];
      SkipSpacesOf(s, 0, b);
      forall m | e <= m < |s| ensures IsSpace(s[m]) {
        assert s[m] == z[m - e];
      }
      assert s[e - 1] == r[|r| - 1];
      SkipSpacesBackOf(s, |s|, e);
      assert s[b..e] == r;
    }
  }

  lemma StripIdempotent(s: string)
    ensures Strip(Strip(s)) == Strip(s)
  {
    var r := Strip(s);
    assert [] + r + [] == r;
    StripOf([], r, []);
  }

  /** Appending whitespace does not change what `strip()` returns. */
  lemma StripBlankSuffix(s: string, w: string)
    requires IsBlank(w)
    ensures Strip(s + w) == Strip(s)
  {
    var b, e := StripFrame(s);
    var x, r, z := s[..b], Strip(s), s[e..];
    assert IsBlank(x) by {
      forall m | 0 <= m < |x| ensures IsSpace(x[m]) { assert x[m] == s[m]; }
    }
    assert IsBlank(z) by {
      forall m | 0 <= m < |z| ensures IsSpace(z[m]) { assert z[m] == s[e + m]; }
    }
    CutThree(s, b, e);
    AppendRight(x + r, z, w);
    BlankConcat(z, w);
    StripOf(x, r, z + w);
  }

  lemma CutThree<T>(s: seq<T>, b: nat, e: nat)
    requires b <= e <= |s|
    ensures s == s[..b] + s[b..e] + s[e..]
  {
  }

  lemma AppendRight<T>(a: seq<T>, z: seq<T>, w: seq<T>)
    ensures a + z + w == a + (z + w)
  {
  }

  /** A piece of `s` that starts and ends on non-whitespace lies inside `s.strip()`. */
  lemma StripKeepsInner(s: string, i: nat, j: nat, q: string)
    requires i < j <= |s| && q == s[i..j] && Stripped(q)
    ensures Contains(Strip(s), q)
  {
    var b, e := StripFrame(s);
    InsideFrame(s, Strip(s), b, e, i, j, q);
  }

  /** The frame argument behind `StripKeepsInner`, stated for any cut of `s` with whitespace outside it. */
  lemma InsideFrame(s: string, r: string, b: nat, e: nat, i: nat, j: nat, q: string)
    requires b <= e <= |s| && r == s[b..e]
    requires forall m | 0 <= m < b :: IsSpace(s[m])
    requires forall m | e <= m < |s| :: IsSpace(s[m])
    requires i < j <= |s| && q == s[i..j] && Stripped(q)
    ensures Contains(r, q)
  {
    assert s[i] == q[0] && s[j - 1] == q[|q| - 1];
    assert b <= i && j <= e;
    SliceOfSlice(s, b, e, i - b, j - b);
    assert OccursAt(r, q, i - b);
  }

  lemma SliceOfSlice<T>(s: seq<T>, b: nat, e: nat, x: nat, y: nat)
    requires b <= e <= |s| && x <= y <= e - b
    ensures s[b..e][x..y] == s[b + x..b + y]
  {
    forall m | 0 <= m < y - x ensures s[b..e][x..y][m] == s[b + x..b + y][m] {
      assert s[b..e][x..y][m] == s[b + x + m];
    }
  }

  /** A non-blank piece of `s` survives `strip()`: its own stripped form occurs in `s.strip()`. */
  lemma StripKeepsPiece(s: string, p: string)
    requires Contains(s, p) && !IsBlank(p)
    ensures Contains(Strip(s), Strip(p))
  {
    var k :| 0 <= k <= |s| - |p| && OccursAt(s, p, k);
    var pb, pe := StripFrame(p);
    PieceOfPiece(s, p, k, pb, pe);
    StripKeepsInner(s, k + pb, k + pe, Strip(p));
  }

  lemma PieceOfPiece(s: string, p: string, k: nat, i: nat, j: nat)
    requires OccursAt(s, p, k) && i <= j <= |p|
    ensures s[k + i..k + j] == p[i..j]
  {
    assert p == s[k..k + |p|];
    forall m | 0 <= m < j - i ensures s[k + i..k + j][m] == p[i..j][m] {
      assert p[i + m] == s[k + i + m];
    }
  }

  /** Whitespace around a string cannot make it blank unless it already was. */
  lemma BlankInner(x: string, p: string, y: string)
    requires IsBlank(x + p + y)
    ensures IsBlank(p)
  {
    forall i | 0 <= i < |p| ensures IsSpace(p[i]) { assert (x + p + y)[|x| + i] == p[i]; }
  }

  lemma ContainsExtend(s: string, t: string, x: string, y: string)
    requires Contains(s, t)
    ensures Contains(x + s + y, t)
  {
    var k :| 0 <= k <= |s| - |t| && OccursAt(s, t, k);
    assert (x + s + y)[|x| + k..|x| + k + |t|] == t;
    assert OccursAt(x + s + y, t, |x| + k);
  }

  lemma ContainsSelf(s: string)
    ensures Contains(s, s)
  {
    assert OccursAt(s, s, 0);
  }

  lemma ContainsBlank(s: string, t: string)
    requires Contains(s, t) && !IsBlank(t)
    ensures !IsBlank(s)
  {
    var k :| 0 <= k <= |s| - |t| && OccursAt(s, t, k);
    var i :| 0 <= i < |t| && !IsSpace(t[i]);
    assert s[k + i] == t[i];
  }

  // ---------------------------------------------------------------------
  // find / rfind

  /** Python's `s.find(t)`: the lowest index where `t` occurs, or -1. */
  function Find(s: string, t: string): (r: int)
    ensures r == -1 || 0 <= r <= |s| - |t|
    ensures r >= 0 ==> OccursAt(s, t, r)
    ensures forall k :: OccursAt(s, t, k) ==> 0 <= r <= k
  {
    FindFrom(s, t, 0)
  }

  /** The scan behind `find`: the lowest index from `i` on where `t` occurs, or -1. */
  function FindFrom(s: string, t: string, i: nat): (r: int)
    ensures r == -1 || i <= r <= |s| - |t|
    ensures r >= 0 ==> OccursAt(s, t, r)
    ensures forall k :: i <= k && OccursAt(s, t, k) ==> 0 <= r <= k
    decreases |s| - i
  {
    if |s| < i + |t| then -1
    else if OccursAt(s, t, i) then i
    else FindFrom(s, t, i + 1)
  }

  /** Python's `s.rfind(t)`: the highest index where `t` occurs, or -1. */
  function RFind(s: string, t: string): (r: int)
    ensures r == -1 || 0 <= r <= |s| - |t|
    ensures r >= 0 ==> OccursAt(s, t, r)
    ensures forall k :: OccursAt(s, t, k) ==> k <= r
  {
    RFindFrom(s, t, |s| - |t|)
  }

  /** The scan behind `rfind`: the highest index up to `j` where `t` occurs, or -1. */
  function RFindFrom(s: string, t: string, j: int): (r: int)
    ensures r == -1 || 0 <= r <= j
    ensures r >= 0 ==> OccursAt(s, t, r)
    ensures forall k :: k <= j && OccursAt(s, t, k) ==> k <= r
    decreases j + 1
  {
    if j < 0 then -1
    else if OccursAt(s, t, j) then j
    else RFindFrom(s, t, j - 1)
  }

  lemma FindContains(s: string, t: string)
    ensures Find(s, t) >= 0 <==> Contains(s, t)
  {
  }

  // ---------------------------------------------------------------------
  // split / join

  /** Python's `sep.join(parts)`. */
  function Join(sep: string, parts: seq<string>): string
  {
    if |parts| == 0 then ""
    else if |parts| == 1 then parts[0]
    else parts[0] + sep + Join(sep, parts[1..])
  }

  /** Python's `s.split(sep)` for a non-empty separator (Python raises on an empty one). */
  function Split(s: string, sep: string): (parts: seq<string>)
    requires sep != ""
    ensures |parts| >= 1
    decreases |s|
  {
    var i := Find(s, sep);
    if i < 0 then [s] else [s[..i]] + Split(s[i + |sep|..], sep)
  }

  /** Joining the pieces of a split with the same separator gives the string back. */
  lemma {:induction false} JoinSplit(s: string, sep: string)
    requires sep != ""
    ensures Join(sep, Split(s, sep)) == s
    decreases |s|
  {
    var i := Find(s, sep);
    if i >= 0 {
      var rest := s[i + |sep|..];
      JoinSplit(rest, sep);
      var tail := Split(rest, sep);
      SplitUnfold(s, sep, rest);
      JoinCons(sep, s[..i], tail);
      CutAround(s, sep, i);
    } else {
      assert Split(s, sep) == [s];
    }
  }

  /** A split at a found separator is the text before it followed by the split of the text after it. */
  lemma SplitUnfold(s: string, sep: string, rest: string)
    requires sep != "" && Find(s, sep) >= 0 && rest == s[Find(s, sep) + |sep|..]
    ensures Split(s, sep) == [s[..Find(s, sep)]] + Split(rest, sep)
  {
  }

  lemma JoinCons(sep: string, x: string, parts: seq<string>)
    requires |parts| >= 1
    ensures Join(sep, [x] + parts) == x + sep + Join(sep, parts)
  {
    assert ([x] + parts)[1..] == parts;
  }

  /** A string is the text before an occurrence, the occurrence, and the text after it. */
  lemma CutAround(s: string, t: string, i: int)
    requires OccursAt(s, t, i)
    ensures s == s[..i] + t + s[i + |t|..]
  {
    assert s == s[..i] + s[i..i + |t|] + s[i + |t|..];
  }

  /** No piece of a split contains the separator. */
  lemma {:induction false} SplitPiecesLackSeparator(s: string, sep: string)
    requires sep != ""
    ensures forall p :: p in Split(s, sep) ==> !Contains(p, sep)
    decreases |s|
  {
    var i := Find(s, sep);
    if i >= 0 {
      SplitPiecesLackSeparator(s[i + |sep|..], sep);
      var head := s[..i];
      forall k ensures !OccursAt(head, sep, k) {
        if OccursAt(head, sep, k) {
          assert head[k..k + |sep|] == s[k..k + |sep|];
          assert OccursAt(s, sep, k);
        }
      }
    }
  }

  /** The last piece of `s.split(sep)`, found by skipping past each separator in turn. */
  function LastPiece(s: string, sep: string): string
    requires sep != ""
    decreases |s|
  {
    var i := Find(s, sep);
    if i < 0 then s else LastPiece(s[i + |sep|..], sep)
  }

  lemma {:induction false} LastPieceOfSplit(s: string, sep: string)
    requires sep != ""
    ensures Split(s, sep)[|Split(s, sep)| - 1] == LastPiece(s, sep)
    ensures |Split(s, sep)| == 1 <==> Find(s, sep) < 0
    decreases |s|
  {
    var i := Find(s, sep);
    if i >= 0 {
      var rest := s[i + |sep|..];
      LastPieceOfSplit(rest, sep);
      SplitCons(s, sep, rest);
      assert LastPiece(s, sep) == LastPiece(rest, sep);
    } else {
      assert Split(s, sep) == [s];
    }
  }

  /**
   * The last piece of a split is the text after the last separator, or the
   * whole string when there is none: it is `s[p..]` where `p` is 0 or
   * directly follows a separator.
   */
  lemma {:induction false} LastPieceStart(s: string, sep: string) returns (p: nat)
    requires sep != ""
    ensures p <= |s| && LastPiece(s, sep) == s[p..]
    ensures p == 0 || (|sep| <= p && s[p - |sep|..p] == sep)
    ensures Find(s, sep) < 0 ==> p == 0
    decreases |s|
  {
    var i := Find(s, sep);
    if i < 0 {
      assert s[0..] == s;
      p := 0;
    } else {
      var a := i + |sep|;
      var rest := s[a..];
      var q := LastPieceStart(rest, sep);
      p := a + q;
      assert rest[q..] == s[p..];
      if q == 0 {
        assert s[p - |sep|..p] == s[i..i + |sep|];
      } else {
        DropSlice(s, a, q - |sep|, q, p - |sep|, p);
      }
    }
  }

  /** A split at a found separator has one more piece than the split of the rest, and the same last piece. */
  lemma SplitCons(s: string, sep: string, rest: string)
    requires sep != "" && Find(s, sep) >= 0 && rest == s[Find(s, sep) + |sep|..]
    ensures |Split(s, sep)| == |Split(rest, sep)| + 1
    ensures Split(s, sep)[|Split(s, sep)| - 1] == Split(rest, sep)[|Split(rest, sep)| - 1]
  {
    var parts := Split(s, sep);
    var tail := Split(rest, sep);
    SplitUnfold(s, sep, rest);
    LastOfCons(s[..Find(s, sep)], tail);
  }

  lemma LastOfCons<T>(x: T, tail: seq<T>)
    requires |tail| >= 1
    ensures |[x] + tail| == |tail| + 1 && ([x] + tail)[|tail|] == tail[|tail| - 1]
  {
  }

  /** A slice of a suffix is a slice of the whole, shifted. */
  lemma DropSlice(s: string, a: nat, x: nat, y: nat, lo: nat, hi: nat)
    requires x <= y && a + y <= |s| && lo == a + x && hi == a + y
    ensures s[a..][x..y] == s[lo..hi]
  {
    forall k | 0 <= k < y - x ensures s[a..][x..y][k] == s[lo..hi][k] {
      assert s[a..][x..y][k] == s[lo + k];
    }
  }

  /** Every piece of a split of a blank string is blank. */
  lemma {:induction false} SplitBlank(s: string, sep: string)
    requires sep != "" && IsBlank(s)
    ensures forall p :: p in Split(s, sep) ==> IsBlank(p)
    decreases |s|
  {
    var i := Find(s, sep);
    if i >= 0 {
      var rest := s[i + |sep|..];
      assert IsBlank(rest) by {
        forall k | 0 <= k < |rest| ensures IsSpace(rest[k]) { assert rest[k] == s[i + |sep| + k]; }
      }
      SplitBlank(rest, sep);
    }
  }

  /** Joining blank parts with a blank separator gives a blank string. */
  lemma {:induction false} JoinBlank(sep: string, parts: seq<string>)
    requires IsBlank(sep) && forall p :: p in parts ==> IsBlank(p)
    ensures IsBlank(Join(sep, parts))
  {
    if |parts| > 1 {
      JoinBlank(sep, parts[1..]);
      BlankConcat(parts[0], sep);
      BlankConcat(parts[0] + sep, Join(sep, parts[1..]));
    }
  }

  /** Joining with a separator drops nothing: the result has every part's characters and every separator. */
  lemma {:induction false} JoinLength(sep: string, parts: seq<string>)
    requires |parts| >= 1
    ensures |Join(sep, parts)| == TotalLength(parts) + |sep| * (|parts| - 1)
  {
    if |parts| > 1 {
      JoinLength(sep, parts[1..]);
      assert TotalLength(parts) == |parts[0]| + TotalLength(parts[1..]);
    }
  }

  /** Appending one part to a non-empty list puts one separator before it. */
  lemma {:induction false} JoinSnoc(sep: string, parts: seq<string>, x: string)
    requires |parts| >= 1
    ensures Join(sep, parts + [x]) == Join(sep, parts) + sep + x
  {
    if |parts| > 1 {
      assert (parts + [x])[1..] == parts[1..] + [x];
      JoinSnoc(sep, parts[1..], x);
    }
  }

  /** Sum of the lengths of the strings. */
  function TotalLength(parts: seq<string>): nat
  {
    if parts == [] then 0 else |parts[0]| + TotalLength(parts[1..])
  }

  /** The concatenation of the strings, in order (Python's `"".join(parts)`). */
  function Concat(parts: seq<string>): string
  {
    if parts == [] then "" else Concat(parts[..|parts| - 1]) + parts[|parts| - 1]
  }

  // ---------------------------------------------------------------------
  // replace(pat, "")

  /** Python's `s.replace(pat, "")`: removes every occurrence, scanning left to right without overlap. */
  function RemoveAll(s: string, pat: string): (r: string)
    requires pat != ""
    ensures |r| <= |s|
    ensures Contains(s, pat) ==> |r| <= |s| - |pat|
    decreases |s|
  {
    if |s| < |pat| then s
    else if s[..|pat|] == pat then RemoveAll(s[|pat|..], pat)
    else
      var r := [s[0]] + RemoveAll(s[1..], pat);
      assert Contains(s, pat) ==> Contains(s[1..], pat) by {
        if Contains(s, pat) {
          var k :| 0 <= k <= |s| - |pat| && OccursAt(s, pat, k);
          assert k != 0;
          assert s[1..][k - 1..k - 1 + |pat|] == pat;
          assert OccursAt(s[1..], pat, k - 1);
        }
      }
      r
  }

  /** Removing a substring that does not occur changes nothing. */
  lemma {:induction false} RemoveAllAbsent(s: string, pat: string)
    requires pat != "" && !Contains(s, pat)
    ensures RemoveAll(s, pat) == s
    decreases |s|
  {
    if |s| >= |pat| {
      assert !OccursAt(s, pat, 0);
      assert !Contains(s[1..], pat) by {
        if Contains(s[1..], pat) {
          var k :| 0 <= k <= |s[1..]| - |pat| && OccursAt(s[1..], pat, k);
          assert s[k + 1..k + 1 + |pat|] == s[1..][k..k + |pat|];
          assert OccursAt(s, pat, k + 1);
        }
      }
      RemoveAllAbsent(s[1..], pat);
    }
  }

  /** Removing from a string that starts with the pattern drops that first occurrence. */
  lemma RemoveAllLeading(pat: string, s: string)
    requires pat != ""
    ensures RemoveAll(pat + s, pat) == RemoveAll(s, pat)
  {
    assert (pat + s)[..|pat|] == pat;
    assert (pat + s)[|pat|..] == s;
  }

  /** `p` has no proper border: no proper suffix of it is also a prefix. */
  predicate NoBorder(p: string) {
    forall k :: 0 < k < |p| ==> p[k..] != p[..|p| - k]
  }

  /** A pattern without a border cannot reappear before a trailing copy of itself has begun. */
  lemma NoEarlyMatch(x: string, p: string)
    requires NoBorder(p) && 0 < |x| < |p|
    ensures (x + p)[..|p|] != p
  {
    var d := |p| - |x|;
    assert p[|x|..] != p[..d];
    assert |p[|x|..]| == |p[..d]| == d;
    var m :| 0 <= m < d && p[|x|..][m] != p[..d][m];
    assert (x + p)[..|p|][|x| + m] == p[m] != p[|x| + m];
  }

  /**
   * A pattern without a border cannot straddle the seam before a trailing
   * copy of itself, so removing all occurrences from `x + p` is removing
   * them from `x` and dropping the trailing copy.
   */
  lemma {:induction false} RemoveAllTrailing(x: string, p: string)
    requires p != "" && NoBorder(p)
    ensures RemoveAll(x + p, p) == RemoveAll(x, p)
    decreases |x|
  {
    var s := x + p;
    if 0 < |x| < |p| {
      NoEarlyMatch(x, p);
    }
    if |x| == 0 {
      assert s == p;
      assert s[..|p|] == p;
      assert s[|p|..] == [];
    } else if s[..|p|] == p {
      assert x[..|p|] == p;
      assert s[|p|..] == x[|p|..] + p;
      RemoveAllTrailing(x[|p|..], p);
    } else {
      assert s[1..] == x[1..] + p;
      RemoveAllTrailing(x[1..], p);
      if |x| < |p| {
        assert RemoveAll(x, p) == x;
        assert RemoveAll(x[1..], p) == x[1..];
        assert x == [x[0]] + x[1..];
      } else {
        assert x[..|p|] == s[..|p|];
      }
    }
  }

  /**
   * When `y` lacks the last character of `p`, no occurrence of `p` in
   * `x + y` reaches into `y`, so `y` comes through the removal intact.
   */
  lemma {:induction false} RemoveAllKeepsTail(x: string, y: string, p: string)
    requires p != "" && p[|p| - 1] !in y
    ensures RemoveAll(x + y, p) == RemoveAll(x, p) + y
    decreases |x|
  {
    var s := x + y;
    if |x| < |p| {
      forall k | 0 <= k <= |s| - |p| ensures !OccursAt(s, p, k) {
        assert s[k + |p| - 1] == y[k + |p| - 1 - |x|];
        assert s[k..k + |p|][|p| - 1] == s[k + |p| - 1];
      }
      RemoveAllAbsent(s, p);
      RemoveAllAbsent(x, p);
    } else if x[..|p|] == p {
      assert s[..|p|] == p;
      assert s[|p|..] == x[|p|..] + y;
      RemoveAllKeepsTail(x[|p|..], y, p);
    } else {
      assert s[..|p|] == x[..|p|];
      assert s[1..] == x[1..] + y;
      RemoveAllKeepsTail(x[1..], y, p);
    }
  }

  /** Removal leaves a string as it is exactly when the pattern does not occur in it. */
  lemma RemoveAllUnchanged(s: string, p: string)
    requires p != ""
    ensures RemoveAll(s, p) == s <==> !Contains(s, p)
  {
    if !Contains(s, p) {
      RemoveAllAbsent(s, p);
    }
  }

  /** An occurrence of `p` in `x + y` lies inside `x` when `y` lacks the last character of `p`. */
  lemma ContainsLeft(x: string, y: string, p: string)
    requires p != "" && p[|p| - 1] !in y && Contains(x + y, p)
    ensures Contains(x, p)
  {
    var k :| 0 <= k <= |x + y| - |p| && OccursAt(x + y, p, k);
    if k + |p| > |x| {
      assert false;
    }
    assert x[k..k + |p|] == p;
    assert OccursAt(x, p, k);
  }

  lemma ContainsPrefix(x: string, y: string, p: string)
    requires Contains(x, p)
    ensures Contains(x + y, p)
  {
    assert x + y == [] + x + y;
    ContainsExtend(x, p, [], y);
  }

  /** A one-character string occurs exactly where that character stands. */
  lemma OccursAtChar(s: string, c: char, k: int)
    ensures OccursAt(s, [c], k) <==> 0 <= k < |s| && s[k] == c
  {
    if 0 <= k < |s| && s[k] == c {
      assert s[k..k + 1] == [c];
    }
  }

  /** `s.find(c)` for one character: the position of its first occurrence, or -1 when it does not occur. */
  lemma FindChar(s: string, c: char)
    ensures Find(s, [c]) < |s|
    ensures Find(s, [c]) >= 0 ==> s[Find(s, [c])] == c && c !in s[..Find(s, [c])]
    ensures forall k | 0 <= k < |s| && s[k] == c :: 0 <= Find(s, [c]) <= k
  {
    var r := Find(s, [c]);
    forall k | 0 <= k < |s| && s[k] == c ensures 0 <= r <= k {
      OccursAtChar(s, c, k);
    }
    if r >= 0 {
      OccursAtChar(s, c, r);
      forall k | 0 <= k < r ensures s[..r][k] != c {
        assert s[..r][k] == s[k];
      }
    }
  }

  /** `s.rfind(c)` for one character: the position of its last occurrence, or -1 when it does not occur. */
  lemma RFindChar(s: string, c: char)
    ensures RFind(s, [c]) < |s|
    ensures RFind(s, [c]) >= 0 ==> s[RFind(s, [c])] == c && c !in s[RFind(s, [c]) + 1..]
    ensures forall k | 0 <= k < |s| && s[k] == c :: k <= RFind(s, [c])
  {
    var r := RFind(s, [c]);
    forall k | 0 <= k < |s| && s[k] == c ensures k <= r {
      OccursAtChar(s, c, k);
    }
    if r >= 0 {
      OccursAtChar(s, c, r);
      var rest := s[r + 1..];
      forall k | 0 <= k < |rest| ensures rest[k] != c {
        assert rest[k] == s[r + 1 + k];
      }
    }
  }

  /** A piece that does not contain a one-character string does not hold that character. */
  lemma LacksChar(s: string, c: char)
    requires !Contains(s, [c])
    ensures c !in s
  {
    if c in s {
      var i :| 0 <= i < |s| && s[i] == c;
      assert OccursAt(s, [c], i);
    }
  }

  // ---------------------------------------------------------------------
  // slices

  /** Python's normalisation of one slice bound against a length. */
  function SliceBound(i: int, n: nat): (r: nat)
    ensures r <= n
  {
    if i < 0 then (if i + n < 0 then 0 else i + n)
    else if i > n then n
    else i
  }

  /** Python's `s[start:stop]`, negative and out-of-range bounds included. */
  function Slice<T>(s: seq<T>, start: int, stop: int): (r: seq<T>)
    ensures var a, b := SliceBound(start, |s|), SliceBound(stop, |s|);
      r == if a <= b then s[a..b] else []
  {
    var a, b := SliceBound(start, |s|), SliceBound(stop, |s|);
    if a <= b then s[a..b] else []
  }

  /** Python's `s[:n]`. */
  function Take<T>(s: seq<T>, n: int): (r: seq<T>)
    ensures n >= 0 ==> |r| == if n < |s| then n else |s|
    ensures n >= 0 ==> r == s[..|r|]
  {
    Slice(s, 0, n)
  }

  /** Python's `s[-n:]`: the last `n` items for `n > 0`, but the whole of `s` for `n == 0`. */
  function TakeLast<T>(s: seq<T>, n: int): (r: seq<T>)
    ensures n > 0 ==> |r| == (if n < |s| then n else |s|) && r == s[|s| - |r|..]
    ensures n == 0 ==> r == s
  {
    Slice(s, -n, |s|)
  }

  // ---------------------------------------------------------------------
  // lower() and str(n)

  /** One element of a Python `bytes` value. */
  newtype Byte = x: int | 0 <= x < 256

  /** Python's `lower()` on one character, ASCII letters only. */
  function LowerChar(c: char): (r: char)
    ensures !('A' <= r <= 'Z')
    ensures !('A' <= c <= 'Z') ==> r == c
    ensures 'A' <= c <= 'Z' ==> 'a' <= r <= 'z'
  {
    if 'A' <= c <= 'Z' then (c as int + 32) as char else c
  }

  function Lower(s: string): (r: string)
    ensures |r| == |s|
    ensures forall i :: 0 <= i < |s| ==> r[i] == LowerChar(s[i])
  {
    seq(|s|, i requires 0 <= i < |s| => LowerChar(s[i]))
  }

  function DigitChar(d: nat): char
    requires d < 10
  {
    ['0', '1', '2', '3', '4', '5', '6', '7', '8', '9'][d]
  }

  function DigitValue(c: char): nat
  {
    if '0' <= c <= '9' then (c as int - '0' as int) else 0
  }

  /** The number a string of decimal digits denotes (the inverse of `NatToString`). */
  function DecimalValue(s: string): nat
  {
    if s == [] then 0 else 10 * DecimalValue(s[..|s| - 1]) + DigitValue(s[|s| - 1])
  }

  /** Python's `str(n)` for a natural number: decimal digits that read back as `n`. */
  function NatToString(n: nat): (r: string)
    ensures r != []
    ensures forall i :: 0 <= i < |r| ==> '0' <= r[i] <= '9'
    ensures DecimalValue(r) == n
  {
    if n < 10 then [DigitChar(n)]
    else
      var r := NatToString(n / 10) + [DigitChar(n % 10)];
      assert r[..|r| - 1] == NatToString(n / 10);
      r
  }

  lemma NatToStringInjective(m: nat, n: nat)
    requires NatToString(m) == NatToString(n)
    ensures m == n
  {
  }
}
