# TED talk scraper — a Dafny model of `scrapes/scrape.py`

The scraper runs in two stages. `scrape_links` walks the paginated "Browse
talks" listing. On each page it keeps the title anchor of every listing
entry: every second `ga-link` anchor, starting from the second. It pauses
after every tenth page. Line 54 is meant to save the links to a file as
`link, link, `, but as written it raises instead (see "## Findings").
`get_talk_links_from_file` reads such a file back.

`scrape_talks` visits every talk link at an index at or after `start_at`.
For each one it:

- cuts the JSON that follows `"__INITIAL_DATA__":` out of the page's script;
- skips the talk when it has several speakers, is tagged `performance` or
  has video type `'5'`;
- otherwise fetches the transcript and flattens its paragraphs' cues into
  tokens. A missing key is a second way of being skipped;
- appends one line per talk to the output file or to the skip log, and
  pauses after every fifth index.

An exception ends the run.

The model has seven modules:

- `Wrappers`: `Option`.
- `Strings`: Python's `str.split` for a non-empty separator. It is built on
  a first-occurrence search, and `Join` gives the split back its input.
- `LinkFile`: the link file's writer, as line 54 intends it, and its reader.
- `LinkCollector`: `scrape_links`, as the imperative method `ScrapeLinks`
  proved against spec functions, with the link file written as line 54
  intends.
- `InitialData`: the marker extraction of line 94.
- `Transcripts`: the transcript document and the nested flattening loop
  `FlattenTranscript`.
- `TalkScraper`: `scrape_talks`.

`TalkScraper` specifies one talk's visit by the function `VisitTalk`;
`VisitTalkPage` is the imperative form of the same loop body (lines
81-168), proved equal to it. The whole loop is `ScrapeTalks`, proved equal to
`Scrape`. `Scrape` is a left fold: one `Step` per index. It records the
lines appended to each file, the indices after which the run paused, the
URLs requested and the exception that ended the run, if any. The lemmas
then describe a run index by index.

Whatever the network and the parsers return comes in as inputs:

- `LinkCollector.ListingPage` is a listing page as the HTML parser sees it.
- `TalkScraper.Site` maps a URL to its data script, the extracted text to
  its `json.loads` result, and a transcript URL to its document.

## Model

| member | source | states |
|---|---|---|
| Strings.IndexOf | scrapes/scrape.py:94 | The first position where the separator occurs, with no occurrence before it; None exactly when it does not occur |
| Strings.Split | scrapes/scrape.py:213 | Python's `split` with a non-empty separator: at least one piece; exactly one piece iff the separator is absent; no piece holds the separator; joining the pieces with it gives the input back |
| Strings.SplitAfterClean | scrapes/scrape.py:213 | For `x` free of a separator that cannot overlap itself, splitting `x + sep + y` gives `x` followed by the pieces of `y` |
| LinkFile.Write | scrapes/scrape.py:54 | The text line 54 intends: each link followed by ", ", in list order (its relation to the reader is LinkFile.ReadWrite) |
| LinkFile.WriteAsWritten | scrapes/scrape.py:53-54 | Line 54 as written: TypeError raised, the file left empty by the earlier truncation |
| LinkFile.Read | scrapes/scrape.py:205-215 | The links read back are free of ", "; writing them again gives a prefix of the file; the dropped last piece holds no ", "; an empty file gives no links |
| LinkFile.SplitWrite | scrapes/scrape.py:211-213 | Splitting a written file gives the links and then one empty last piece, as the comment on line 211 expects |
| LinkFile.ReadWrite | scrapes/scrape.py:54 | Round trip: reading back the file the writer is meant to produce gives the same links in the same order |
| LinkFile.AsWrittenLosesLinks | scrapes/scrape.py:52-54 | Line 54 as written raises TypeError and leaves the file empty, so the saved links read back as none |
| LinkCollector.TitleLinks | scrapes/scrape.py:40 | The `[1::2]` slice: half as many links as anchors, the k-th being anchor 2k+1, and every odd-position anchor kept in order |
| LinkCollector.CollectedLinks | scrapes/scrape.py:34-46 | The list `talk_links` after all pages: each page's title links, page after page |
| LinkCollector.CollectedLinksAppend | scrapes/scrape.py:34-46 | Links are collected in page order: the links of `a + b` are those of `a` followed by those of `b` |
| LinkCollector.CollectedLinksCount | scrapes/scrape.py:40-46 | Exactly one link per listing entry (anchor pair) |
| LinkCollector.PausePagesIff | scrapes/scrape.py:48-50 | A pause follows page p (1-based) iff p is a multiple of ten, and the pauses come in increasing order |
| LinkCollector.FirstUnlisted | scrapes/scrape.py:40 | The first page without a "browse-results" element: it lacks one and every earlier page has one |
| LinkCollector.FirstUnlistedAt | scrapes/scrape.py:34-40 | A page with no "browse-results" and none missing before it is the first such page |
| LinkCollector.ScrapeLinks | scrapes/scrape.py:24-56 | If every page has results: all title links in page order, the link-file text as line 54 intends it when a non-empty path is given, and a pause after every tenth page. Otherwise: the AttributeError at the first page without results, with the pauses taken before it |
| InitialData.DropLast | scrapes/scrape.py:94 | `[:-3]`: a prefix three characters shorter, or the empty string when the piece is shorter than that |
| InitialData.Extract | scrapes/scrape.py:94 | The IndexError of `[1]` happens exactly when the marker does not occur in the script |
| InitialData.ExtractBetween | scrapes/scrape.py:94 | The extracted text is what lies between the first marker and the next one (or the end), minus its last three characters |
| Transcripts.Tokens | scrapes/scrape.py:147-158 | The token list of the transcript, or None for the KeyError path (characterised by TokensDefinedIff and TokenAt) |
| Transcripts.CueTextsDefinedIff | scrapes/scrape.py:153-155 | A paragraph's cues give texts iff every cue has "text", one text per cue, in cue order |
| Transcripts.ParagraphTextsDefinedIff | scrapes/scrape.py:151-155 | The paragraphs give texts iff every paragraph has "cues" and every cue "text"; one text per cue overall |
| Transcripts.TokensDefinedIff | scrapes/scrape.py:149-158 | The transcript yields tokens (no KeyError) iff "paragraphs", every "cues" and every "text" are present, and then there is one token per cue |
| Transcripts.TokenAt | scrapes/scrape.py:151-155 | Token order is playback order: cue c of paragraph p is the token at position (cues before paragraph p) + c |
| Transcripts.CueFailurePersists | scrapes/scrape.py:153-158 | A cue without text anywhere makes the whole flattening fail; no partial token list survives the KeyError |
| Transcripts.ParagraphFailurePersists | scrapes/scrape.py:151-158 | The same for a paragraph without "cues" |
| Transcripts.FlattenTranscript | scrapes/scrape.py:147-158 | The nested loop yields exactly the tokens of the transcript, or the KeyError outcome exactly when a key is missing |
| TalkScraper.SkipFilter | scrapes/scrape.py:100 | The policy skip: more than one speaker, or a "performance" tag, or video type id equal to the string '5' |
| TalkScraper.LoadTalk | scrapes/scrape.py:81-97 | The first talk entry of the page's parsed data, or the exception raised on the way: no script, no marker, bad JSON, no talks |
| TalkScraper.RecordFor | scrapes/scrape.py:115-127 | The record dictionary: the talk's fields, the first speaker's id, the page's comment count, language and event, and the tokens |
| TalkScraper.VisitTalk | scrapes/scrape.py:81-168 | The talk page is always requested first; the transcript is requested second exactly when the talk is accepted or skipped for its transcript |
| TalkScraper.Step | scrapes/scrape.py:75-203 | One index of the loop: both files, the pauses and the requests only grow; at most one line is written; after an exception nothing changes |
| TalkScraper.HaltIsFinal | scrapes/scrape.py:73-203 | Once an exception is raised, no later index changes any file, pause or request |
| TalkScraper.FilteredBeforeTranscript | scrapes/scrape.py:99-112 | A talk is skipped by policy iff its page loads and the filter matches; it then requests nothing but its page, and its skip line is (title, id, speaker_name, link) |
| TalkScraper.NoSpeakerCrashes | scrapes/scrape.py:100-119 | A talk with no speakers that is neither a performance nor of video type '5' passes the filter and fails at `speakers[0]`, before any transcript fetch |
| TalkScraper.MalformedTranscriptSkipped | scrapes/scrape.py:144-168 | A talk goes to the skip log for its transcript iff it loads, passes the filter, has exactly one speaker and its transcript lacks a key; both documents were fetched |
| TalkScraper.AcceptedRecord | scrapes/scrape.py:100-182 | A talk is accepted iff its page loads, it passes the filter, has exactly one speaker and its transcript has every key; both documents are then fetched, its record is the line 115-127 assembly from the talk entry and page data, and its tokens are the transcript's complete flattening, one per cue |
| TalkScraper.RunStops | scrapes/scrape.py:73-203 | Every index from start_at up to where the run stops ended without an exception; an exception is the outcome of the stopping index, which is at or after start_at |
| TalkScraper.RunAccepted | scrapes/scrape.py:181-182 | The output file receives the records of the accepted talks among the processed indices, in list order |
| TalkScraper.RunSkipped | scrapes/scrape.py:99-168 | The skip log receives the lines of the filtered and malformed-transcript talks among the processed indices, in list order |
| TalkScraper.RunPauses | scrapes/scrape.py:99-203 | Pauses are taken after the processed indices whose successor is a multiple of five, whatever each talk's outcome |
| TalkScraper.RunRequests | scrapes/scrape.py:81-145 | The requests are those of the processed talks in order, followed by those of the talk that raised, if any |
| TalkScraper.OneLinePerOutcome | scrapes/scrape.py:99-182 | Each processed index that raises nothing writes exactly one line, to exactly one of the two files; hence as many lines as such indices |
| TalkScraper.LinesComeFromOutcomes | scrapes/scrape.py:99-182 | Every output line is an accepted talk's record and every accepted record is written; every skipped talk's line is in the skip log |
| TalkScraper.PauseIndicesIff | scrapes/scrape.py:201-203 | A pause follows index p iff p is processed and p + 1 is a multiple of five; pauses come in increasing order |
| TalkScraper.CompletedRunLineCount | scrapes/scrape.py:73-203 | A run that raises nothing writes one line per index from start_at to the end of the list |
| TalkScraper.NothingBeforeStart | scrapes/scrape.py:75-77 | Indices below start_at write nothing, pause nowhere and request nothing |
| TalkScraper.RunIgnoresEarlierVisits | scrapes/scrape.py:75-77 | What happens at indices below start_at never affects the run |
| TalkScraper.ResumeIgnoresEarlierLinks | scrapes/scrape.py:73-77 | Two link lists that agree from start_at on are scraped identically |
| TalkScraper.VisitTalkPage | scrapes/scrape.py:81-168 | The loop body for one processed index: the URLs it requests and how the talk ends, as `VisitTalk` specifies |
| TalkScraper.ScrapeTalks | scrapes/scrape.py:64-203 | The loop over the indexed links produces the run `Scrape` specifies, whose properties are the lemmas above |

The model keeps these behaviours of the code, which a reader might not
expect:

- Both skip paths write the same 4-tuple line (lines 105 and 161), so the
  skip log does not record why a talk was skipped. `Outcome` tells
  `Filtered` from `TranscriptMalformed`, but `SkipLine` gives both the same
  line.
- A talk with no speakers passes the filter and then raises IndexError at
  line 119. It is neither skipped nor accepted.
- A missing data script (line 94 on `None`), a missing marker, unparsable
  JSON and an empty `talks` list each end the run too.

## Left out

- HTTP requests, BeautifulSoup and the regular expression used to find the
  script (lines 37-38, 81-91, 144-145): their results are inputs, as
  `ListingPage` and `Site`. The listing request's query parameters (page
  number, sort order) are not modelled; the pages come in request order.
- `json.loads` and `transc_res.json()`: the parsed values are inputs. A
  transcript body that is not JSON at all, and transcript values of the
  wrong JSON type (a TypeError rather than a KeyError), are not modelled.
- KeyErrors from missing talk metadata keys (`title`, `video_type`,
  `comments` and the like) and from an anchor without `href`: the parsed
  data is typed, so these keys are always present. Their values also have
  the types the code relies on: `id` is a string (a number would raise
  TypeError when line 144 builds the transcript URL), `speakers` and `tags`
  are lists, and the record fields are passed through unchanged.
- Tags are a list of strings, so `"performance" in tags` is list membership.
  A tags value that is a string, where `in` would test for a substring, is
  not modelled.
- Responses are fixed per URL: `Site` is a function of the URL, so a link
  listed twice gets the same response both times, and two runs compared by
  `ResumeIgnoresEarlierLinks` see the same site. Responses that change
  between requests are not modelled.
- `print` output and the length of `time.sleep(60)`: a pause is recorded
  only as the page number or index after which it happens.
- Files: the output file and the skip log are modelled as the sequences of
  lines a run appends. Their earlier contents, the text encoding and the
  `str()` rendering of the record and the tuple are not modelled. No reader
  for those lines exists, so no round trip for them is stated.
- `LinkFile.ReadWrite`: requires links without ", ". The file format cannot
  carry such a link, and `Read` itself is modelled on every input.
- The default of 81 pages is the length of the page sequence given.
- The repository's two other near-duplicate script variants are not part of
  this model.

## Findings

| source | as written | input that shows it | evidently intended | confidence | as-written member | corrected member |
|---|---|---|---|---|---|---|
| scrapes/scrape.py:54 | `file.write` is given a generator expression, so it raises TypeError after `open(outfile, 'w')` has already emptied the file; `scrape_links` then raises instead of returning the links | any list of links with a non-empty `outfile` (even an empty list raises; with at least one link, links are lost) | write the concatenation of every link followed by ", ", which `get_talk_links_from_file` reads back | not executed | LinkFile.AsWrittenLosesLinks | LinkFile.ReadWrite |
