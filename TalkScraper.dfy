/** `scrape_talks` (scrapes/scrape.py lines 64-203): for each talk link at
    an index at or after `start_at`, fetch the talk page, extract and parse
    its embedded data, skip the talk by policy or for a malformed
    transcript, otherwise build its record; append one line to the output
    or to the skip log, and pause after every fifth index. */
module TalkScraper {
  import opened Wrappers
  import InitialData
  import Transcripts

  const BaseUrl: string := "https://www.ted.com"
  const TranscriptUrlExtension: string := "/transcript.json?language=en"
  const IndicesPerBreak: nat := 5

  /** A JSON scalar, kept only where the code compares it with a string. */
  datatype JsonScalar = JString(s: string) | JNumber(n: int)

  datatype SpeakerRef = SpeakerRef(id: string)

  /** A rating object, passed through to the record without being read. */
  datatype Rating = Rating(fields: seq<(string, JsonScalar)>)

  /** The entry `talk_data["talks"][0]` and the keys the code reads from it. */
  datatype Talk = Talk(
    title: string,
    id: string,
    speakerName: string,
    speakers: seq<SpeakerRef>,
    tags: seq<string>,
    videoTypeId: JsonScalar,
    viewedCount: int,
    recordedAt: string,
    ratings: seq<Rating>,
    duration: int)

  /** The parsed `__INITIAL_DATA__` object. */
  datatype TalkData = TalkData(talks: seq<Talk>, commentCount: int, language: string, event: string)

  /** One line of the output file (the dictionary `data`). */
  datatype TalkRecord = TalkRecord(
    title: string,
    talkId: string,
    speaker: string,
    speakerId: string,
    numViews: int,
    numComments: int,
    date: string,
    tags: seq<string>,
    categories: seq<Rating>,
    language: string,
    duration: int,
    event: string,
    tokens: seq<string>)

  /** One line of the skip log: (title, id, speaker_name, link). */
  datatype SkipEntry = SkipEntry(title: string, talkId: string, speakerName: string, link: string)

  /** The exceptions that end the run:
      NoDataScript — `script` is None, `.text` raises AttributeError (line 94);
      MarkerMissing — `[1]` raises IndexError (line 94);
      BadJson — `json.loads` raises (line 96);
      NoTalks — `talk_data["talks"][0]` raises IndexError (line 97);
      NoSpeakers — `talk["speakers"][0]` raises IndexError (line 119). */
  datatype Failure = NoDataScript | MarkerMissing | BadJson | NoTalks | NoSpeakers

  /** What fetching and parsing return, given as functions of the URL:
      the text of the page's script that mentions __INITIAL_DATA__ (None
      when there is none), `json.loads` on the extracted text (None when
      it raises), and the transcript document at a transcript URL. */
  datatype Site = Site(
    dataScript: string -> Option<string>,
    parseData: string -> Option<TalkData>,
    transcript: string -> Transcripts.Transcript)

  /** How one talk ends. */
  datatype Outcome =
    | Accepted(record: TalkRecord)
    | Filtered(entry: SkipEntry)
    | TranscriptMalformed(entry: SkipEntry)
    | Crashed(failure: Failure)

  /** One talk: the URLs it requests, in order, and its outcome. */
  datatype Visit = Visit(requests: seq<string>, outcome: Outcome)

  datatype Halt = Halt(index: nat, failure: Failure)

  /** What a run leaves behind: the lines appended to the output file and
      to the skip log, the indices after which it paused, the URLs it
      requested, and the exception that ended it, if any. */
  datatype Run = Run(
    accepted: seq<TalkRecord>,
    skipped: seq<SkipEntry>,
    pauses: seq<nat>,
    requests: seq<string>,
    halt: Option<Halt>)

  function PageUrl(link: string): string
  {
    BaseUrl + link
  }

  function TranscriptUrl(talkId: string): string
  {
    BaseUrl + "/talks/" + talkId + TranscriptUrlExtension
  }

  /** The skip filter of line 100. */
  predicate SkipFilter(talk: Talk)
  {
    |talk.speakers| > 1 || "performance" in talk.tags || talk.videoTypeId == JString("5")
  }

  function EntryFor(talk: Talk, link: string): SkipEntry
  {
    SkipEntry(talk.title, talk.id, talk.speakerName, link)
  }

  /** Lines 115-127 and 157. */
  function RecordFor(talk: Talk, data: TalkData, tokens: seq<string>): TalkRecord
    requires |talk.speakers| > 0
  {
    TalkRecord(talk.title, talk.id, talk.speakerName, talk.speakers[0].id, talk.viewedCount,
               data.commentCount, talk.recordedAt, talk.tags, talk.ratings, data.language,
               talk.duration, data.event, tokens)
  }

  /** The talk page, up to the first talk entry (lines 81-97). */
  datatype Loaded = Loaded(data: TalkData, talk: Talk) | LoadFailed(failure: Failure)

  function LoadTalk(link: string, site: Site): Loaded
  {
    match site.dataScript(PageUrl(link))
    case None => LoadFailed(NoDataScript)
    case Some(script) =>
      match InitialData.Extract(script)
      case None => LoadFailed(MarkerMissing)
      case Some(dataString) =>
        match site.parseData(dataString)
        case None => LoadFailed(BadJson)
        case Some(data) =>
          if |data.talks| == 0 then LoadFailed(NoTalks) else Loaded(data, data.talks[0])
  }

  /** One iteration of the loop body for a processed index (lines 81-182). */
  function VisitTalk(link: string, site: Site): (v: Visit)
    ensures 1 <= |v.requests| <= 2 && v.requests[0] == PageUrl(link)
    ensures |v.requests| == 2 <==> v.outcome.Accepted? || v.outcome.TranscriptMalformed?
  {
    var page := PageUrl(link);
    match LoadTalk(link, site)
    case LoadFailed(f) => Visit([page], Crashed(f))
    case Loaded(data, talk) =>
      if SkipFilter(talk) then Visit([page], Filtered(EntryFor(talk, link)))
      else if |talk.speakers| == 0 then Visit([page], Crashed(NoSpeakers))
      else
        var url := TranscriptUrl(talk.id);
        match Transcripts.Tokens(site.transcript(url))
        case None => Visit([page, url], TranscriptMalformed(EntryFor(talk, link)))
        case Some(tokens) => Visit([page, url], Accepted(RecordFor(talk, data, tokens)))
  }

  /** The pause taken after index `i` (lines 108-110, 164-166, 201-203). */
  function PauseAt(i: nat): seq<nat>
  {
    if (i + 1) % IndicesPerBreak == 0 then [i] else []
  }

  const NoRun := Run([], [], [], [], None)

  /** The visits the talks at every index would make: a visit depends only
      on the link and on what the site returns. */
  function Visits(links: seq<string>, site: Site): seq<Visit>
  {
    seq(|links|, i requires 0 <= i < |links| => VisitTalk(links[i], site))
  }

  /** The line an outcome appends to the output file ... */
  function RecordLine(o: Outcome): seq<TalkRecord>
  {
    match o
    case Accepted(rec) => [rec]
    case _ => []
  }

  /** ... and the line it appends to the skip log. */
  function SkipLine(o: Outcome): seq<SkipEntry>
  {
    match o
    case Filtered(e) => [e]
    case TranscriptMalformed(e) => [e]
    case _ => []
  }

  /** The run after index `i`, whose talk makes visit `v`, has been considered:
      indices before `start_at` and indices after an exception change
      nothing; an exception ends the run without a pause; any other outcome
      appends its line and then pauses when due. */
  function Step(r: Run, i: nat, v: Visit, startAt: int): (r': Run)
    ensures r.accepted <= r'.accepted && r.skipped <= r'.skipped
    ensures r.pauses <= r'.pauses && r.requests <= r'.requests
    ensures |r'.accepted| + |r'.skipped| <= |r.accepted| + |r.skipped| + 1
    ensures r.halt.Some? ==> r' == r
  {
    if r.halt.Some? || i < startAt then r
    else if v.outcome.Crashed? then
      r.(requests := r.requests + v.requests, halt := Some(Halt(i, v.outcome.failure)))
    else
      Run(r.accepted + RecordLine(v.outcome), r.skipped + SkipLine(v.outcome),
          r.pauses + PauseAt(i), r.requests + v.requests, None)
  }

  /** The run over the indices 0..n-1. */
  function RunUpTo(visits: seq<Visit>, n: nat, startAt: int): Run
    requires n <= |visits|
  {
    if n == 0 then NoRun
    else Step(RunUpTo(visits, n - 1, startAt), n - 1, visits[n - 1], startAt)
  }

  function Scrape(links: seq<string>, startAt: int, site: Site): Run
  {
    RunUpTo(Visits(links, site), |links|, startAt)
  }

  /** An exception ends the run: nothing after it changes anything. */
  lemma {:induction false} HaltIsFinal(visits: seq<Visit>, k: nat, n: nat, startAt: int)
    requires k <= n <= |visits|
    requires RunUpTo(visits, k, startAt).halt.Some?
    ensures RunUpTo(visits, n, startAt) == RunUpTo(visits, k, startAt)
    decreases n - k
  {
    if k < n {
      HaltIsFinal(visits, k + 1, n, startAt);
    }
  }

  // ---------------------------------------------------------------------
  // One talk

  /** The skip filter is applied before any transcript fetch: a talk is
      filtered exactly when its page loads and the filter matches, it then
      requests nothing but its page, and its skip line is
      (title, id, speaker_name, link). */
  lemma FilteredBeforeTranscript(link: string, site: Site)
    ensures VisitTalk(link, site).outcome.Filtered? <==>
      LoadTalk(link, site).Loaded? && SkipFilter(LoadTalk(link, site).talk)
    ensures VisitTalk(link, site).outcome.Filtered? ==>
      && VisitTalk(link, site).requests == [PageUrl(link)]
      && VisitTalk(link, site).outcome.entry == EntryFor(LoadTalk(link, site).talk, link)
  {
  }

  /** A talk without speakers passes the filter (no more than one speaker)
      and then fails at `speakers[0]`, before its transcript is fetched. */
  lemma NoSpeakerCrashes(link: string, site: Site)
    requires LoadTalk(link, site).Loaded?
    requires |LoadTalk(link, site).talk.speakers| == 0
    requires !("performance" in LoadTalk(link, site).talk.tags)
    requires LoadTalk(link, site).talk.videoTypeId != JString("5")
    ensures VisitTalk(link, site) == Visit([PageUrl(link)], Crashed(NoSpeakers))
  {
  }

  /** The second skip path: a talk that passes the filter and has a speaker
      goes to the skip log when its transcript lacks a "paragraphs",
      "cues" or "text" key, after both fetches. */
  lemma MalformedTranscriptSkipped(link: string, site: Site)
    ensures VisitTalk(link, site).outcome.TranscriptMalformed? <==>
      && LoadTalk(link, site).Loaded?
      && !SkipFilter(LoadTalk(link, site).talk)
      && |LoadTalk(link, site).talk.speakers| == 1
      && !Transcripts.KeysPresent(site.transcript(TranscriptUrl(LoadTalk(link, site).talk.id)))
    ensures VisitTalk(link, site).outcome.TranscriptMalformed? ==>
      && VisitTalk(link, site).requests
         == [PageUrl(link), TranscriptUrl(LoadTalk(link, site).talk.id)]
      && VisitTalk(link, site).outcome.entry == EntryFor(LoadTalk(link, site).talk, link)
  {
    match LoadTalk(link, site)
    case LoadFailed(_) =>
    case Loaded(_, talk) =>
      Transcripts.TokensDefinedIff(site.transcript(TranscriptUrl(talk.id)));
  }

  /** A talk is accepted exactly when its page loads, it passes the filter,
      it has a single speaker and its transcript has every key. Both
      documents are then fetched, its record is assembled from the talk
      entry and the page data (lines 115-127), and its tokens are one per
      cue of that transcript, in playback order (see Transcripts.TokenAt). */
  lemma AcceptedRecord(link: string, site: Site)
    ensures VisitTalk(link, site).outcome.Accepted? <==>
      && LoadTalk(link, site).Loaded?
      && !SkipFilter(LoadTalk(link, site).talk)
      && |LoadTalk(link, site).talk.speakers| == 1
      && Transcripts.KeysPresent(site.transcript(TranscriptUrl(LoadTalk(link, site).talk.id)))
    ensures VisitTalk(link, site).outcome.Accepted? ==>
      var talk := LoadTalk(link, site).talk;
      var rec := VisitTalk(link, site).outcome.record;
      var transcript := site.transcript(TranscriptUrl(talk.id));
      && VisitTalk(link, site).requests == [PageUrl(link), TranscriptUrl(talk.id)]
      && rec == RecordFor(talk, LoadTalk(link, site).data, rec.tokens)
      && Transcripts.Tokens(transcript) == Some(rec.tokens)
      && |rec.tokens| == Transcripts.CueCount(transcript.paragraphs.value)
  {
    match LoadTalk(link, site)
    case LoadFailed(_) =>
    case Loaded(_, talk) =>
      Transcripts.TokensDefinedIff(site.transcript(TranscriptUrl(talk.id)));
  }

  // ---------------------------------------------------------------------
  // The whole run, described index by index

  /** The outcomes of the talks at indices lo..hi-1. */
  function Outcomes(visits: seq<Visit>, lo: nat, hi: nat): (os: seq<Outcome>)
    requires hi <= |visits|
  {
    if hi <= lo then [] else Outcomes(visits, lo, hi - 1) + [visits[hi - 1].outcome]
  }

  lemma {:induction false} OutcomesAt(visits: seq<Visit>, lo: nat, hi: nat)
    requires lo <= hi <= |visits|
    ensures |Outcomes(visits, lo, hi)| == hi - lo
    ensures forall k :: 0 <= k < hi - lo ==> Outcomes(visits, lo, hi)[k] == visits[lo + k].outcome
  {
    if lo < hi {
      OutcomesAt(visits, lo, hi - 1);
      var os := Outcomes(visits, lo, hi - 1);
      var os' := os + [visits[hi - 1].outcome];
      assert Outcomes(visits, lo, hi) == os';
      forall k | 0 <= k < hi - lo
        ensures os'[k] == visits[lo + k].outcome
      {
        if k < hi - 1 - lo {
          assert os'[k] == os[k];
        }
      }
    }
  }

  /** The URLs requested by the talks at indices lo..hi-1, in order. */
  function RequestsOf(visits: seq<Visit>, lo: nat, hi: nat): seq<string>
    requires hi <= |visits|
  {
    if hi <= lo then [] else RequestsOf(visits, lo, hi - 1) + visits[hi - 1].requests
  }

  /** The lines an outcome list puts in the output file ... */
  function AcceptedOf(os: seq<Outcome>): seq<TalkRecord>
  {
    if |os| == 0 then [] else AcceptedOf(os[..|os| - 1]) + RecordLine(os[|os| - 1])
  }

  /** ... and in the skip log. */
  function SkippedOf(os: seq<Outcome>): seq<SkipEntry>
  {
    if |os| == 0 then [] else SkippedOf(os[..|os| - 1]) + SkipLine(os[|os| - 1])
  }

  /** The indices among lo..hi-1 after which a pause is taken. */
  function PauseIndices(lo: nat, hi: nat): seq<nat>
  {
    if hi <= lo then [] else PauseIndices(lo, hi - 1) + PauseAt(hi - 1)
  }

  /** The first index processed: `start_at`, clamped to 0..hi. */
  function Lo(startAt: int, hi: nat): nat
  {
    if startAt < 0 then 0 else if startAt > hi then hi else startAt
  }

  /** One past the last index that wrote a line: the index of the exception,
      or the end of the list. */
  function Limit(r: Run, n: nat): nat
  {
    match r.halt
    case Some(h) => h.index
    case None => n
  }

  /** Where a run over indices 0..n-1 stops, with lo = start_at (clamped)
      and hi the index of the exception, or n: every index in lo..hi-1
      ended without an exception, and the exception, if any, is the
      outcome of index hi, which is at or after start_at. */
  lemma {:induction false} RunStops(visits: seq<Visit>, n: nat, startAt: int)
    requires n <= |visits|
    ensures
      var r := RunUpTo(visits, n, startAt);
      var hi := Limit(r, n);
      var lo := Lo(startAt, hi);
      && hi <= n
      && (r.halt.Some? ==> startAt <= hi < n && visits[hi].outcome == Crashed(r.halt.value.failure))
      && (forall i :: lo <= i < hi ==> !visits[i].outcome.Crashed?)
  {
    if n > 0 {
      RunStops(visits, n - 1, startAt);
    }
  }

  /** The output file gets the records of the accepted talks among indices
      lo..hi-1, in list order; indices below start_at contribute nothing. */
  lemma {:induction false} RunAccepted(visits: seq<Visit>, n: nat, startAt: int)
    requires n <= |visits|
    ensures
      var r := RunUpTo(visits, n, startAt);
      var hi := Limit(r, n);
      && hi <= n
      && r.accepted == AcceptedOf(Outcomes(visits, Lo(startAt, hi), hi))
  {
    if n > 0 {
      RunAccepted(visits, n - 1, startAt);
      var r0 := RunUpTo(visits, n - 1, startAt);
      var i := n - 1;
      if r0.halt.None? && i >= startAt && !visits[i].outcome.Crashed? {
        var os := Outcomes(visits, Lo(startAt, i), i);
        var os' := Outcomes(visits, Lo(startAt, i), n);
        assert os' == os + [visits[i].outcome];
        assert os'[..|os|] == os;
      }
    }
  }

  /** The skip log gets the skip lines of the talks among indices lo..hi-1
      that were filtered or had a malformed transcript, in list order. */
  lemma {:induction false} RunSkipped(visits: seq<Visit>, n: nat, startAt: int)
    requires n <= |visits|
    ensures
      var r := RunUpTo(visits, n, startAt);
      var hi := Limit(r, n);
      && hi <= n
      && r.skipped == SkippedOf(Outcomes(visits, Lo(startAt, hi), hi))
  {
    if n > 0 {
      RunSkipped(visits, n - 1, startAt);
      var r0 := RunUpTo(visits, n - 1, startAt);
      var i := n - 1;
      if r0.halt.None? && i >= startAt && !visits[i].outcome.Crashed? {
        var os := Outcomes(visits, Lo(startAt, i), i);
        var os' := Outcomes(visits, Lo(startAt, i), n);
        assert os' == os + [visits[i].outcome];
        assert os'[..|os|] == os;
      }
    }
  }

  /** Pauses are taken after the indices of lo..hi-1 whose successor is a
      multiple of five (see PauseIndicesIff), whatever each talk's outcome. */
  lemma {:induction false} RunPauses(visits: seq<Visit>, n: nat, startAt: int)
    requires n <= |visits|
    ensures
      var r := RunUpTo(visits, n, startAt);
      var hi := Limit(r, n);
      && hi <= n
      && r.pauses == PauseIndices(Lo(startAt, hi), hi)
  {
    if n > 0 {
      RunPauses(visits, n - 1, startAt);
    }
  }

  /** The requests are those of the talks lo..hi-1, followed by those of
      the talk that raised the exception, if any. */
  lemma {:induction false} RunRequests(visits: seq<Visit>, n: nat, startAt: int)
    requires n <= |visits|
    ensures
      var r := RunUpTo(visits, n, startAt);
      var hi := Limit(r, n);
      && hi <= n
      && (r.halt.Some? ==> hi < n)
      && r.requests == RequestsOf(visits, Lo(startAt, hi), if r.halt.Some? then hi + 1 else hi)
  {
    if n > 0 {
      RunRequests(visits, n - 1, startAt);
      var r0 := RunUpTo(visits, n - 1, startAt);
      var i := n - 1;
      if r0.halt.None? && i >= startAt {
        var lo := Lo(startAt, i);
        assert Lo(startAt, n) == lo;
        assert RequestsOf(visits, lo, n) == RequestsOf(visits, lo, i) + visits[i].requests;
      }
    }
  }

  /** Every processed index yields exactly one line, in exactly one of the
      two files. */
  lemma {:induction false} OneLinePerOutcome(os: seq<Outcome>)
    requires forall k :: 0 <= k < |os| ==> !os[k].Crashed?
    ensures forall k :: 0 <= k < |os| ==> |RecordLine(os[k])| + |SkipLine(os[k])| == 1
    ensures |AcceptedOf(os)| + |SkippedOf(os)| == |os|
  {
    if |os| > 0 {
      OneLinePerOutcome(os[..|os| - 1]);
    }
  }

  /** The output file holds only accepted talks' records and every one of
      them; the skip log holds every skipped talk's line. */
  lemma {:induction false} LinesComeFromOutcomes(os: seq<Outcome>)
    ensures forall k :: 0 <= k < |AcceptedOf(os)| ==> Accepted(AcceptedOf(os)[k]) in os
    ensures forall j :: 0 <= j < |os| && os[j].Accepted? ==> os[j].record in AcceptedOf(os)
    ensures forall j :: 0 <= j < |os| && (os[j].Filtered? || os[j].TranscriptMalformed?) ==>
      os[j].entry in SkippedOf(os)
  {
    if |os| > 0 {
      var init := os[..|os| - 1];
      LinesComeFromOutcomes(init);
      forall j | 0 <= j < |os| - 1 ensures os[j] == init[j] { }
    }
  }

  /** A pause is taken after index p exactly when p is in lo..hi-1 and
      p + 1 is a multiple of five; pauses come in increasing order. */
  lemma {:induction false} PauseIndicesIff(lo: nat, hi: nat)
    ensures forall p :: p in PauseIndices(lo, hi) <==> lo <= p < hi && (p + 1) % IndicesPerBreak == 0
    ensures forall k, m :: 0 <= k < m < |PauseIndices(lo, hi)| ==>
      PauseIndices(lo, hi)[k] < PauseIndices(lo, hi)[m]
  {
    if lo < hi {
      PauseIndicesIff(lo, hi - 1);
      var before := PauseIndices(lo, hi - 1);
      forall k | 0 <= k < |before| ensures before[k] < hi - 1 {
        assert before[k] in before;
      }
    }
  }

  /** A completed run (no exception) wrote one line per index from
      `start_at` to the end of the list, and nothing for the indices
      before it. */
  lemma CompletedRunLineCount(links: seq<string>, startAt: int, site: Site)
    requires Scrape(links, startAt, site).halt.None?
    ensures
      var r := Scrape(links, startAt, site);
      |r.accepted| + |r.skipped| == |links| - Lo(startAt, |links|)
  {
    var visits := Visits(links, site);
    var lo := Lo(startAt, |links|);
    assert Scrape(links, startAt, site) == RunUpTo(visits, |links|, startAt);
    RunStops(visits, |links|, startAt);
    RunAccepted(visits, |links|, startAt);
    RunSkipped(visits, |links|, startAt);
    OutcomesAt(visits, lo, |links|);
    OneLinePerOutcome(Outcomes(visits, lo, |links|));
  }

  /** Indices below `start_at` produce nothing: no line, no pause, no request. */
  lemma {:induction false} NothingBeforeStart(visits: seq<Visit>, n: nat, startAt: int)
    requires n <= |visits| && n <= startAt
    ensures RunUpTo(visits, n, startAt) == NoRun
  {
    if n > 0 {
      NothingBeforeStart(visits, n - 1, startAt);
    }
  }

  /** Resuming: the visits before `start_at` are never looked at, so two
      lists of visits that agree from `start_at` on give the same run. */
  lemma {:induction false} RunIgnoresEarlierVisits(
    visits: seq<Visit>, visits': seq<Visit>, n: nat, startAt: int)
    requires n <= |visits| == |visits'|
    requires forall i :: 0 <= i < |visits| && i >= startAt ==> visits[i] == visits'[i]
    ensures RunUpTo(visits, n, startAt) == RunUpTo(visits', n, startAt)
  {
    if n > 0 {
      RunIgnoresEarlierVisits(visits, visits', n - 1, startAt);
    }
  }

  /** ... hence two link lists that agree from `start_at` on are scraped
      alike, whatever the links before `start_at` are. */
  lemma ResumeIgnoresEarlierLinks(links: seq<string>, links': seq<string>, startAt: int, site: Site)
    requires |links| == |links'|
    requires forall i :: 0 <= i < |links| && i >= startAt ==> links[i] == links'[i]
    ensures Scrape(links, startAt, site) == Scrape(links', startAt, site)
  {
    RunIgnoresEarlierVisits(Visits(links, site), Visits(links', site), |links|, startAt);
  }

  /** The body of the loop for one processed index, up to the point where
      a line is written (lines 81-168): the requests made and how the talk
      ends. */
  method VisitTalkPage(talkLink: string, site: Site) returns (visit: Visit)
    ensures visit == VisitTalk(talkLink, site)
  {
    var pageUrl := PageUrl(talkLink);
    var script := site.dataScript(pageUrl);
    if script.None? {
      return Visit([pageUrl], Crashed(NoDataScript));
    }
    var talkDataString := InitialData.Extract(script.value);
    if talkDataString.None? {
      return Visit([pageUrl], Crashed(MarkerMissing));
    }
    var talkData := site.parseData(talkDataString.value);
    if talkData.None? {
      return Visit([pageUrl], Crashed(BadJson));
    }
    if |talkData.value.talks| == 0 {
      return Visit([pageUrl], Crashed(NoTalks));
    }
    var talk := talkData.value.talks[0];
    if SkipFilter(talk) {
      return Visit([pageUrl], Filtered(EntryFor(talk, talkLink)));
    }
    if |talk.speakers| == 0 {
      return Visit([pageUrl], Crashed(NoSpeakers));
    }
    var transcriptUrl := TranscriptUrl(talk.id);
    var tokens := Transcripts.FlattenTranscript(site.transcript(transcriptUrl));
    if tokens.None? {
      return Visit([pageUrl, transcriptUrl], TranscriptMalformed(EntryFor(talk, talkLink)));
    }
    return Visit([pageUrl, transcriptUrl], Accepted(RecordFor(talk, talkData.value, tokens.value)));
  }

  /** Lines 64-203: the loop over the indexed links. */
  method ScrapeTalks(talkLinks: seq<string>, startAt: int, site: Site) returns (run: Run)
    ensures run == Scrape(talkLinks, startAt, site)
  {
    var accepted: seq<TalkRecord> := [];
    var skipped: seq<SkipEntry> := [];
    var pauses: seq<nat> := [];
    var requests: seq<string> := [];
    var halt: Option<Halt> := None;
    ghost var visits := Visits(talkLinks, site);
    var index := 0;
    while index < |talkLinks|
      invariant 0 <= index <= |talkLinks|
      invariant halt.None?
      invariant Run(accepted, skipped, pauses, requests, halt) == RunUpTo(visits, index, startAt)
    {
      var talkLink := talkLinks[index];
      if index < startAt {
        index := index + 1;
        continue;
      }
      var visit := VisitTalkPage(talkLink, site);
      assert visit == visits[index];
      requests := requests + visit.requests;
      match visit.outcome {
        case Crashed(f) =>
          halt := Some(Halt(index, f));
          break;
        case Filtered(entry) =>
          skipped := skipped + [entry];
        case TranscriptMalformed(entry) =>
          skipped := skipped + [entry];
        case Accepted(record) =>
          accepted := accepted + [record];
      }
      if (index + 1) % IndicesPerBreak == 0 {
        pauses := pauses + [index];
      }
      index := index + 1;
    }
    run := Run(accepted, skipped, pauses, requests, halt);
    if halt.Some? {
      assert run == RunUpTo(visits, index + 1, startAt);
      HaltIsFinal(visits, index + 1, |talkLinks|, startAt);
    }
  }
}
