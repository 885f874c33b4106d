/** The link-list file shared by `scrape_links` (writer, scrapes/scrape.py
    line 54) and `get_talk_links_from_file` (reader, lines 205-215): every
    link followed by the two characters ", ". */
module LinkFile {
  import opened Strings

  const Separator: string := ", "

  lemma SeparatorNoSelfOverlap()
    ensures |Separator| == 2 && NoSelfOverlap(Separator)
  {
    assert !Border(Separator, 1) by {
      assert Separator[1..][0] != Separator[..1][0];
    }
  }

  /** The file text line 54 is meant to produce: each link, then ", ". */
  function Write(links: seq<string>): string
  {
    if |links| == 0 then "" else links[0] + Separator + Write(links[1..])
  }

  /** Links the file format can carry: none holds the separator. */
  ghost predicate Clean(links: seq<string>)
  {
    forall k :: 0 <= k < |links| ==> !Contains(links[k], Separator)
  }

  /** `get_talk_links_from_file`: split the text on ", " and drop the last
      piece. What comes back is free of separators, is written back as a
      prefix of the file, and the part of the file after that prefix (the
      dropped piece) holds no separator; an empty file gives no links. */
  function Read(data: string): (links: seq<string>)
    ensures Clean(links)
    ensures Write(links) <= data
    ensures !Contains(data[|Write(links)|..], Separator)
    ensures data == "" ==> links == []
  {
    var pieces := Split(data, Separator);
    var links := pieces[..|pieces| - 1];
    var last := pieces[|pieces| - 1];
    assert data == Write(links) + last by {
      assert pieces == links + [last];
      if |links| > 0 {
        JoinSnoc(links, last, Separator);
        WriteIsJoin(links);
      }
    }
    assert data == "" ==> !Contains(data, Separator);
    links
  }

  lemma {:induction false} WriteIsJoin(links: seq<string>)
    requires |links| > 0
    ensures Write(links) == Join(links, Separator) + Separator
    decreases |links|
  {
    if |links| > 1 {
      WriteIsJoin(links[1..]);
    }
  }

  /** Splitting a written file gives the links back, then one empty piece
      after the final separator. */
  lemma {:induction false} SplitWrite(links: seq<string>)
    requires Clean(links)
    ensures Split(Write(links), Separator) == links + [""]
    decreases |links|
  {
    SeparatorNoSelfOverlap();
    if |links| == 0 {
      assert !Contains("", Separator);
    } else {
      assert Clean(links[1..]);
      SplitAfterClean(links[0], Separator, Write(links[1..]));
      SplitWrite(links[1..]);
      assert links == [links[0]] + links[1..];
    }
  }

  /** The round trip of the link file: reading back what was written gives
      the same links in the same order. */
  lemma ReadWrite(links: seq<string>)
    requires Clean(links)
    ensures Read(Write(links)) == links
  {
    SplitWrite(links);
  }

  /** Line 54 as it stands: `file.write` is handed a generator, not a
      string, and raises TypeError; the file was already opened with 'w',
      so it is left empty. */
  datatype SaveOutcome = TypeErrorRaised(fileLeft: string)

  function WriteAsWritten(links: seq<string>): SaveOutcome
  {
    TypeErrorRaised("")
  }

  /** The writer as it stands loses every link: the file it leaves behind
      reads back as no links at all. */
  lemma AsWrittenLosesLinks(links: seq<string>)
    requires |links| > 0
    ensures WriteAsWritten(links).TypeErrorRaised?
    ensures Read(WriteAsWritten(links).fileLeft) == []
    ensures Read(WriteAsWritten(links).fileLeft) != links
  {
  }
}
