/** The transcript document of a talk and its flattening into cue texts
    (scrapes/scrape.py lines 147-158): paragraphs in order, within each
    paragraph its cues in order, and from each cue its "text". A missing
    "paragraphs", "cues" or "text" key raises KeyError, and the tokens
    gathered so far are thrown away. */
module Transcripts {
  import opened Wrappers

  /** The parsed JSON document, keeping only the keys the flattening reads;
      None marks a key that is absent from its object. */
  datatype Cue = Cue(text: Option<string>)
  datatype Paragraph = Paragraph(cues: Option<seq<Cue>>)
  datatype Transcript = Transcript(paragraphs: Option<seq<Paragraph>>)

  /** The texts of `cues` in order, or None on the first cue without text. */
  function CueTexts(cues: seq<Cue>): Option<seq<string>>
    decreases |cues|
  {
    if |cues| == 0 then Some([])
    else
      match CueTexts(cues[..|cues| - 1])
      case None => None
      case Some(texts) =>
        match cues[|cues| - 1].text
        case None => None
        case Some(t) => Some(texts + [t])
  }

  /** The cue texts of all paragraphs, paragraph after paragraph, or None
      on the first missing "cues" or "text" key. */
  function ParagraphTexts(ps: seq<Paragraph>): Option<seq<string>>
    decreases |ps|
  {
    if |ps| == 0 then Some([])
    else
      match ParagraphTexts(ps[..|ps| - 1])
      case None => None
      case Some(texts) =>
        match ps[|ps| - 1].cues
        case None => None
        case Some(cues) =>
          match CueTexts(cues)
          case None => None
          case Some(more) => Some(texts + more)
  }

  /** The `tokens` of an accepted talk, or None when the KeyError path is taken. */
  function Tokens(t: Transcript): Option<seq<string>>
  {
    match t.paragraphs
    case None => None
    case Some(ps) => ParagraphTexts(ps)
  }

  /** Every key the flattening reads is present. */
  predicate CuesHaveText(cues: seq<Cue>)
  {
    forall c :: 0 <= c < |cues| ==> cues[c].text.Some?
  }

  predicate ParagraphsComplete(ps: seq<Paragraph>)
  {
    forall p :: 0 <= p < |ps| ==> ps[p].cues.Some? && CuesHaveText(ps[p].cues.value)
  }

  predicate KeysPresent(t: Transcript)
  {
    t.paragraphs.Some? && ParagraphsComplete(t.paragraphs.value)
  }

  /** The number of cues in the paragraphs that have them. */
  function CueCount(ps: seq<Paragraph>): nat
    decreases |ps|
  {
    if |ps| == 0 then 0
    else CueCount(ps[..|ps| - 1]) + (match ps[|ps| - 1].cues case None => 0 case Some(cues) => |cues|)
  }

  lemma {:induction false} CueTextsDefinedIff(cues: seq<Cue>)
    ensures CueTexts(cues).Some? <==> CuesHaveText(cues)
    ensures CueTexts(cues).Some? ==> |CueTexts(cues).value| == |cues|
    ensures CueTexts(cues).Some? ==>
      forall c :: 0 <= c < |cues| ==> CueTexts(cues).value[c] == cues[c].text.value
    decreases |cues|
  {
    if |cues| > 0 {
      var init := cues[..|cues| - 1];
      CueTextsDefinedIff(init);
      assert CuesHaveText(cues) ==> CuesHaveText(init) by {
        forall c | 0 <= c < |init| ensures cues[c] == init[c] { }
      }
    }
  }

  lemma {:induction false} ParagraphTextsDefinedIff(ps: seq<Paragraph>)
    ensures ParagraphTexts(ps).Some? <==> ParagraphsComplete(ps)
    ensures ParagraphTexts(ps).Some? ==> |ParagraphTexts(ps).value| == CueCount(ps)
    decreases |ps|
  {
    if |ps| > 0 {
      var init := ps[..|ps| - 1];
      ParagraphTextsDefinedIff(init);
      assert ParagraphsComplete(ps) ==> ParagraphsComplete(init) by {
        forall p | 0 <= p < |init| ensures ps[p] == init[p] { }
      }
      match ps[|ps| - 1].cues
      case None =>
      case Some(cues) => CueTextsDefinedIff(cues);
    }
  }

  /** The flattening succeeds exactly when every "paragraphs", "cues" and
      "text" key it reads is present; then it yields one token per cue. */
  lemma TokensDefinedIff(t: Transcript)
    ensures Tokens(t).Some? <==> KeysPresent(t)
    ensures Tokens(t).Some? ==> |Tokens(t).value| == CueCount(t.paragraphs.value)
  {
    if t.paragraphs.Some? {
      ParagraphTextsDefinedIff(t.paragraphs.value);
    }
  }

  /** Token order is playback order: cue `c` of paragraph `p` is the token
      at position (cues in paragraphs before `p`) + `c`, so no cue is dropped
      or moved. */
  lemma {:induction false} ParagraphTextAt(ps: seq<Paragraph>, p: nat, c: nat)
    requires ParagraphsComplete(ps)
    requires p < |ps| && c < |ps[p].cues.value|
    ensures ParagraphTexts(ps).Some?
    ensures CueCount(ps[..p]) + c < |ParagraphTexts(ps).value|
    ensures ParagraphTexts(ps).value[CueCount(ps[..p]) + c] == ps[p].cues.value[c].text.value
    decreases |ps|
  {
    ParagraphTextsDefinedIff(ps);
    var init := ps[..|ps| - 1];
    assert ParagraphsComplete(init) by {
      forall q | 0 <= q < |init| ensures ps[q] == init[q] { }
    }
    ParagraphTextsDefinedIff(init);
    var cues := ps[|ps| - 1].cues.value;
    CueTextsDefinedIff(cues);
    if p < |ps| - 1 {
      ParagraphTextAt(init, p, c);
      assert init[..p] == ps[..p];
      assert init[p] == ps[p];
    } else {
      assert ps[..p] == init;
    }
  }

  lemma TokenAt(t: Transcript, p: nat, c: nat)
    requires KeysPresent(t)
    requires p < |t.paragraphs.value| && c < |t.paragraphs.value[p].cues.value|
    ensures Tokens(t).Some?
    ensures CueCount(t.paragraphs.value[..p]) + c < |Tokens(t).value|
    ensures Tokens(t).value[CueCount(t.paragraphs.value[..p]) + c]
         == t.paragraphs.value[p].cues.value[c].text.value
  {
    ParagraphTextAt(t.paragraphs.value, p, c);
  }

  /** Once a prefix of the cues fails, the whole list fails. */
  lemma {:induction false} CueFailurePersists(cues: seq<Cue>, n: nat)
    requires n <= |cues| && CueTexts(cues[..n]).None?
    ensures CueTexts(cues).None?
    decreases |cues| - n
  {
    if n < |cues| {
      assert cues[..n + 1][..n] == cues[..n];
      CueFailurePersists(cues, n + 1);
    } else {
      assert cues[..n] == cues;
    }
  }

  lemma {:induction false} ParagraphFailurePersists(ps: seq<Paragraph>, n: nat)
    requires n <= |ps| && ParagraphTexts(ps[..n]).None?
    ensures ParagraphTexts(ps).None?
    decreases |ps| - n
  {
    if n < |ps| {
      assert ps[..n + 1][..n] == ps[..n];
      ParagraphFailurePersists(ps, n + 1);
    } else {
      assert ps[..n] == ps;
    }
  }

  /** Lines 147-158: nested loops appending each cue's text to `tokens`;
      any missing key abandons the partial list. */
  method FlattenTranscript(transcript: Transcript) returns (tokens: Option<seq<string>>)
    ensures tokens == Tokens(transcript)
  {
    if transcript.paragraphs.None? {
      return None;
    }
    var paragraphs := transcript.paragraphs.value;
    var acc: seq<string> := [];
    var i := 0;
    while i < |paragraphs|
      invariant 0 <= i <= |paragraphs|
      invariant ParagraphTexts(paragraphs[..i]) == Some(acc)
    {
      assert paragraphs[..i + 1][..i] == paragraphs[..i];
      if paragraphs[i].cues.None? {
        ParagraphFailurePersists(paragraphs, i + 1);
        return None;
      }
      var cues := paragraphs[i].cues.value;
      ghost var before := acc;
      var j := 0;
      while j < |cues|
        invariant 0 <= j <= |cues|
        invariant CueTexts(cues[..j]).Some?
        invariant acc == before + CueTexts(cues[..j]).value
      {
        assert cues[..j + 1][..j] == cues[..j];
        if cues[j].text.None? {
          CueFailurePersists(cues, j + 1);
          ParagraphFailurePersists(paragraphs, i + 1);
          return None;
        }
        acc := acc + [cues[j].text.value];
        j := j + 1;
      }
      assert cues[..j] == cues;
      i := i + 1;
    }
    assert paragraphs[..i] == paragraphs;
    return Some(acc);
  }
}
