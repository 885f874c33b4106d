/** Python's `str.split(sep)` for a non-empty separator, on `seq<char>`:
    the string is cut at the leftmost occurrence of `sep`, and the search
    resumes just after it, so the pieces come from non-overlapping
    occurrences taken from left to right. */
module Strings {
  import opened Wrappers

  /** `sep` occurs in `s` starting at position `i`. */
  predicate OccursAt(s: string, sep: string, i: int)
  {
    0 <= i && i + |sep| <= |s| && s[i..i + |sep|] == sep
  }

  ghost predicate Contains(s: string, sep: string)
  {
    exists i :: OccursAt(s, sep, i)
  }

  /** The index of the first occurrence of `sep` in `s`, as `str.find`
      computes it (with None for -1). */
  function IndexOf(s: string, sep: string): (r: Option<nat>)
    requires |sep| > 0
    ensures r.Some? ==> OccursAt(s, sep, r.value)
    ensures r.Some? ==> forall j :: 0 <= j < r.value ==> !OccursAt(s, sep, j)
    ensures r.None? <==> !Contains(s, sep)
    decreases |s|
  {
    if |s| < |sep| then None
    else if s[..|sep|] == sep then
      assert OccursAt(s, sep, 0) by { assert s[0..|sep|] == s[..|sep|]; }
      Some(0)
    else
      assert !OccursAt(s, sep, 0) by { assert s[0..|sep|] == s[..|sep|]; }
      match IndexOf(s[1..], sep)
      case None =>
        assert !Contains(s, sep) by {
          if Contains(s, sep) {
            var j :| OccursAt(s, sep, j);
            OccursShift(s, 1, sep, j - 1);
          }
        }
        None
      case Some(i) =>
        OccursShift(s, 1, sep, i);
        assert forall j :: 0 <= j < i + 1 ==> !OccursAt(s, sep, j) by {
          forall j | 0 < j < i + 1
            ensures !OccursAt(s, sep, j)
          {
            OccursShift(s, 1, sep, j - 1);
          }
        }
        Some(i + 1)
  }

  /** An occurrence with none before it is what `IndexOf` finds. */
  lemma IndexOfFirst(s: string, sep: string, i: nat)
    requires |sep| > 0 && OccursAt(s, sep, i)
    requires forall k :: 0 <= k < i ==> !OccursAt(s, sep, k)
    ensures IndexOf(s, sep) == Some(i)
  {
    assert Contains(s, sep);
  }

  /** Occurrences in a suffix are occurrences in the whole string, shifted. */
  lemma OccursShift(s: string, k: nat, sep: string, q: nat)
    requires k <= |s|
    ensures OccursAt(s[k..], sep, q) <==> OccursAt(s, sep, k + q)
  {
    if q + |sep| <= |s| - k {
      assert s[k..][q..q + |sep|] == s[k + q..k + q + |sep|];
    }
  }

  /** Occurrences in a prefix are occurrences in the whole string. */
  lemma OccursInPrefix(s: string, n: nat, sep: string, j: int)
    requires n <= |s|
    requires OccursAt(s[..n], sep, j)
    ensures OccursAt(s, sep, j)
  {
    assert s[..n][j..j + |sep|] == s[j..j + |sep|];
  }

  /** Python's `sep.join(pieces)`. */
  function Join(pieces: seq<string>, sep: string): string
  {
    if |pieces| == 0 then ""
    else if |pieces| == 1 then pieces[0]
    else pieces[0] + sep + Join(pieces[1..], sep)
  }

  /** Python's `s.split(sep)`: never empty, one more piece than there are
      occurrences, no piece holding the separator, and joining the pieces
      back with `sep` rebuilds `s`. */
  function Split(s: string, sep: string): (r: seq<string>)
    requires |sep| > 0
    ensures |r| >= 1
    ensures |r| == 1 <==> !Contains(s, sep)
    ensures forall k :: 0 <= k < |r| ==> !Contains(r[k], sep)
    ensures Join(r, sep) == s
    decreases |s|
  {
    match IndexOf(s, sep)
    case None => [s]
    case Some(i) =>
      CutAtFirst(s, sep, i);
      var rest := Split(s[i + |sep|..], sep);
      assert ([s[..i]] + rest)[1..] == rest;
      [s[..i]] + rest
  }

  /** The first piece of a split ends at the first occurrence. */
  lemma SplitFirstPiece(s: string, sep: string, q: nat)
    requires |sep| > 0 && IndexOf(s, sep) == Some(q)
    ensures Split(s, sep)[0] == s[..q]
  {
  }

  /** Cutting `s` at its first occurrence `i` of `sep`. */
  lemma CutAtFirst(s: string, sep: string, i: nat)
    requires |sep| > 0 && IndexOf(s, sep) == Some(i)
    ensures Contains(s, sep)
    ensures !Contains(s[..i], sep)
    ensures s == s[..i] + sep + s[i + |sep|..]
  {
    FirstPieceClean(s, sep, i);
    assert s == s[..i] + s[i..i + |sep|] + s[i + |sep|..];
  }

  /** The text before the first occurrence holds no occurrence. */
  lemma FirstPieceClean(s: string, sep: string, i: nat)
    requires |sep| > 0
    requires OccursAt(s, sep, i)
    requires forall j :: 0 <= j < i ==> !OccursAt(s, sep, j)
    ensures !Contains(s[..i], sep)
  {
    if Contains(s[..i], sep) {
      var j :| OccursAt(s[..i], sep, j);
      OccursInPrefix(s, i, sep, j);
    }
  }

  /** A separator that cannot overlap itself: no proper suffix of it is
      also a prefix of it. */
  predicate Border(sep: string, k: int)
  {
    0 < k < |sep| && sep[k..] == sep[..|sep| - k]
  }

  predicate NoSelfOverlap(sep: string)
  {
    forall k :: 0 < k < |sep| ==> !Border(sep, k)
  }

  /** When `x` holds no separator and the separator cannot overlap itself,
      no occurrence in `x + sep + y` starts inside `x`. */
  lemma NoOccurrenceInside(x: string, sep: string, y: string, j: nat)
    requires |sep| > 0 && NoSelfOverlap(sep)
    requires !Contains(x, sep)
    requires j < |x|
    ensures !OccursAt(x + sep + y, sep, j)
  {
    var s := x + sep + y;
    if j + |sep| <= |x| {
      assert s[j..j + |sep|] == x[j..j + |sep|];
      assert OccursAt(s, sep, j) ==> OccursAt(x, sep, j);
    } else if OccursAt(s, sep, j) {
      assert s[|x|..|x| + |sep|] == sep;
      StraddleIsBorder(s, sep, j, |x|);
    }
  }

  /** Two occurrences less than a separator apart make the separator
      overlap itself. */
  lemma StraddleIsBorder(s: string, sep: string, j: nat, p: nat)
    requires OccursAt(s, sep, j) && OccursAt(s, sep, p)
    requires j < p < j + |sep|
    ensures Border(sep, p - j)
  {
    var k := p - j;
    forall m | 0 <= m < |sep| - k
      ensures sep[k..][m] == sep[..|sep| - k][m]
    {
      assert s[j..j + |sep|][k + m] == s[p + m];
      assert s[p..p + |sep|][m] == s[p + m];
    }
  }

  /** ... so the first occurrence is the one right after `x`. */
  lemma IndexAfterClean(x: string, sep: string, y: string)
    requires |sep| > 0 && NoSelfOverlap(sep)
    requires !Contains(x, sep)
    ensures IndexOf(x + sep + y, sep) == Some(|x|)
  {
    var s := x + sep + y;
    assert s[|x|..|x| + |sep|] == sep;
    forall j | 0 <= j < |x|
      ensures !OccursAt(s, sep, j)
    {
      NoOccurrenceInside(x, sep, y, j);
    }
    IndexOfFirst(s, sep, |x|);
  }

  /** Splitting `x + sep + y`, with `x` free of separators, yields `x`
      followed by the pieces of `y`. */
  lemma {:induction false} SplitAfterClean(x: string, sep: string, y: string)
    requires |sep| > 0 && NoSelfOverlap(sep)
    requires !Contains(x, sep)
    ensures Split(x + sep + y, sep) == [x] + Split(y, sep)
  {
    var s := x + sep + y;
    IndexAfterClean(x, sep, y);
    assert s[..|x|] == x;
    assert s[|x| + |sep|..] == y;
  }

  /** Joining `init + [last]` is joining `init`, a separator, then `last`. */
  lemma {:induction false} JoinSnoc(init: seq<string>, last: string, sep: string)
    requires |init| > 0
    ensures Join(init + [last], sep) == Join(init, sep) + sep + last
    decreases |init|
  {
    if |init| == 1 {
      assert (init + [last])[1..] == [last];
    } else {
      assert (init + [last])[1..] == init[1..] + [last];
      JoinSnoc(init[1..], last, sep);
    }
  }
}
