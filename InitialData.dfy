/** The extraction of the talk page's embedded data at scrapes/scrape.py
    line 94: the text of the script holding `"__INITIAL_DATA__":` is split
    on that marker, piece [1] is taken and its last three characters (a
    newline and the closing of the outer object) are dropped. */
module InitialData {
  import opened Wrappers
  import opened Strings

  const Marker: string := "\"__INITIAL_DATA__\":"
  const TrailerLength: nat := 3

  /** Python's `s[:-n]` for a positive `n`: a string shorter than `n`
      gives the empty string rather than an error. */
  function DropLast(s: string, n: nat): (r: string)
    requires n > 0
    ensures r <= s
    ensures |s| >= n ==> |r| == |s| - n
    ensures |s| < n ==> r == ""
  {
    if |s| >= n then s[..|s| - n] else ""
  }

  /** Line 94. None stands for the IndexError raised by `[1]` when the
      split gives a single piece, which happens exactly when the marker
      does not occur in the script. */
  function Extract(script: string): (r: Option<string>)
    ensures r.None? <==> !Contains(script, Marker)
  {
    var pieces := Split(script, Marker);
    if |pieces| < 2 then None else Some(DropLast(pieces[1], TrailerLength))
  }

  /** What the extraction yields: with `i` the first occurrence of the
      marker and `j` the next occurrence after it (or the end of the
      script), the text strictly between them minus its last three
      characters. */
  lemma ExtractBetween(script: string, i: nat, j: nat)
    requires OccursAt(script, Marker, i)
    requires forall k :: 0 <= k < i ==> !OccursAt(script, Marker, k)
    requires i + |Marker| <= j <= |script|
    requires j == |script| || OccursAt(script, Marker, j)
    requires forall k :: i + |Marker| <= k < j ==> !OccursAt(script, Marker, k)
    ensures Extract(script) == Some(DropLast(script[i + |Marker|..j], TrailerLength))
  {
    var start := i + |Marker|;
    ExtractAfterFirst(script, i);
    if j < |script| {
      NextPieceUpTo(script, start, j);
    } else {
      NextPieceToEnd(script, start);
    }
  }

  /** When the marker occurs again at `j`, the piece after `start` stops there. */
  lemma NextPieceUpTo(script: string, start: nat, j: nat)
    requires start <= j && OccursAt(script, Marker, j)
    requires forall k :: start <= k < j ==> !OccursAt(script, Marker, k)
    ensures Split(script[start..], Marker)[0] == script[start..j]
  {
    var rest := script[start..];
    var q := j - start;
    OccursShift(script, start, Marker, q);
    forall k | 0 <= k < q
      ensures !OccursAt(rest, Marker, k)
    {
      OccursShift(script, start, Marker, k);
    }
    IndexOfFirst(rest, Marker, q);
    SplitFirstPiece(rest, Marker, q);
    assert rest[..q] == script[start..j];
  }

  /** When the marker does not occur again, the piece runs to the end. */
  lemma NextPieceToEnd(script: string, start: nat)
    requires start <= |script|
    requires forall k :: start <= k < |script| ==> !OccursAt(script, Marker, k)
    ensures Split(script[start..], Marker)[0] == script[start..|script|]
  {
    var rest := script[start..];
    assert !Contains(rest, Marker) by {
      if Contains(rest, Marker) {
        var k :| OccursAt(rest, Marker, k);
        OccursShift(script, start, Marker, k);
      }
    }
    assert rest == script[start..|script|];
  }

  /** The piece taken is the first piece of what follows the first marker. */
  lemma ExtractAfterFirst(script: string, i: nat)
    requires OccursAt(script, Marker, i)
    requires forall k :: 0 <= k < i ==> !OccursAt(script, Marker, k)
    ensures Extract(script) == Some(DropLast(Split(script[i + |Marker|..], Marker)[0], TrailerLength))
  {
    IndexOfFirst(script, Marker, i);
  }
}
