/**
 * The upload handler: every paper is extracted, cleaned, ranked and counted in
 * upload order, and its cleaned text is appended to `all_text` after a space.
 * When more than one paper was uploaded, the same ranking (with 15 terms) and
 * word count (15 words) run once more over `all_text`.
 *
 * Two steps can raise, and an exception ends the script run: no later paper
 * is handled and the combined block does not run. `Document(docx_file)`
 * raises for a file it cannot read, and `fit_transform` raises `ValueError`
 * when the text leaves the vectorizer with an empty vocabulary.
 */
module Uploads {
  import opened TextClean
  import opened Tokenize
  import opened Ordered
  import opened Ranking
  import opened Topics
  import opened WordCount

  datatype Option<T> = None | Some(value: T)

  /** An uploaded `.docx` file: its name and, when the document parser can
      read it, the text of its paragraphs in order (`None` when it raises). */
  datatype Upload = Upload(name: string, paragraphs: Option<seq<string>>)

  /** What is shown for one paper. */
  datatype PaperReport = PaperReport(name: string, topics: seq<string>, commonWords: seq<(string, int)>)

  /** A paper handled without error: its report and its `cleaned` text. */
  datatype Paper = Paper(report: PaperReport, cleaned: string)

  /** What is shown for all papers together. */
  datatype CombinedReport = CombinedReport(topics: seq<string>, commonWords: seq<(string, int)>)

  const PaperTopN: nat := 10
  const CombinedTopN: nat := 15

  /** `"\n".join(paragraphs)`, as `extract_text_from_docx` returns it. */
  function JoinLines(paragraphs: seq<string>): string {
    if paragraphs == [] then []
    else if |paragraphs| == 1 then paragraphs[0]
    else paragraphs[0] + "\n" + JoinLines(paragraphs[1..])
  }

  /** The words of each paragraph on its own, paragraph after paragraph. */
  function ParagraphWords(paragraphs: seq<string>): seq<string> {
    if paragraphs == [] then [] else Split(CleanText(paragraphs[0])) + ParagraphWords(paragraphs[1..])
  }

  /** One pass of the loop body for upload `u`, with `vectorize` standing for
      fitting a fresh TF-IDF vectorizer on `[cleaned]` (`None` when it raises). */
  function AnalyzedPaper(u: Upload, vectorize: string -> Option<Features>): Option<Paper> {
    match u.paragraphs
    case None => None
    case Some(paragraphs) =>
      var cleaned := CleanText(JoinLines(paragraphs));
      match vectorize(cleaned)
      case None => None
      case Some(f) =>
        Some(Paper(PaperReport(u.name, ExtractTopics(f, PaperTopN), MostCommon(Split(cleaned), PaperTopN)), cleaned))
  }

  /** A paper fails exactly when its file cannot be read or the vectorizer fit
      on its cleaned text raises; otherwise it carries its own name, at most ten
      topics and at most ten common words, and its cleaned text. */
  lemma AnalyzedPaperSpec(u: Upload, vectorize: string -> Option<Features>)
    ensures AnalyzedPaper(u, vectorize).None? <==>
              u.paragraphs.None? || vectorize(CleanText(JoinLines(u.paragraphs.value))).None?
    ensures AnalyzedPaper(u, vectorize).Some? ==>
              AnalyzedPaper(u, vectorize).value.cleaned == CleanText(JoinLines(u.paragraphs.value)) &&
              AnalyzedPaper(u, vectorize).value.report.name == u.name &&
              |AnalyzedPaper(u, vectorize).value.report.topics| <= PaperTopN &&
              |AnalyzedPaper(u, vectorize).value.report.commonWords| <= PaperTopN
  {
  }

  /** The values before the first `None`: how far a run gets when each step
      either succeeds or raises. */
  function Successes<T>(os: seq<Option<T>>): (h: seq<T>)
    ensures |h| <= |os|
  {
    if os == [] then []
    else
      var n := |os| - 1;
      var h := Successes(os[..n]);
      if |h| < n then h
      else
        match os[n]
        case None => h
        case Some(x) => h + [x]
  }

  /** The run holds the values of the steps before the first failure, and
      stops at that failure. */
  lemma {:induction false} SuccessesSpec<T>(os: seq<Option<T>>)
    ensures forall i :: 0 <= i < |Successes(os)| ==> os[i] == Some(Successes(os)[i])
    ensures |Successes(os)| < |os| ==> os[|Successes(os)|].None?
  {
    if os != [] {
      var n := |os| - 1;
      SuccessesSpec(os[..n]);
    }
  }

  /** Step `k` extends the run when all steps before it succeeded. */
  lemma SuccessesStep<T>(os: seq<Option<T>>, k: nat)
    requires k < |os| && |Successes(os[..k])| == k
    ensures Successes(os[..k + 1]) == if os[k].Some? then Successes(os[..k]) + [os[k].value] else Successes(os[..k])
  {
    assert os[..k + 1][..k] == os[..k];
  }

  /** Once a step has failed, later steps change nothing. */
  lemma {:induction false} SuccessesStop<T>(os: seq<Option<T>>, k: nat)
    requires k <= |os| && |Successes(os[..k])| < k
    ensures Successes(os) == Successes(os[..k])
    decreases |os| - k
  {
    if k == |os| {
      assert os[..k] == os;
    } else {
      assert os[..k + 1][..k] == os[..k];
      SuccessesStop(os, k + 1);
    }
  }

  /** What each upload's pass would give on its own. */
  function Outcomes(us: seq<Upload>, vectorize: string -> Option<Features>): (os: seq<Option<Paper>>)
    ensures |os| == |us|
  {
    if us == [] then [] else Outcomes(us[..|us| - 1], vectorize) + [AnalyzedPaper(us[|us| - 1], vectorize)]
  }

  lemma {:induction false} OutcomesAt(us: seq<Upload>, vectorize: string -> Option<Features>, i: nat)
    requires i < |us|
    ensures Outcomes(us, vectorize)[i] == AnalyzedPaper(us[i], vectorize)
  {
    if i < |us| - 1 {
      OutcomesAt(us[..|us| - 1], vectorize, i);
    }
  }

  /** The papers the loop gets through: every upload up to, not including, the
      first one that fails, each with its own analysis. */
  function Handled(us: seq<Upload>, vectorize: string -> Option<Features>): (h: seq<Paper>)
    ensures |h| <= |us|
    ensures forall i :: 0 <= i < |h| ==> AnalyzedPaper(us[i], vectorize) == Some(h[i])
    ensures |h| < |us| ==> AnalyzedPaper(us[|h|], vectorize).None?
  {
    SuccessesSpec(Outcomes(us, vectorize));
    assert forall i :: 0 <= i < |us| ==> Outcomes(us, vectorize)[i] == AnalyzedPaper(us[i], vectorize) by {
      forall i | 0 <= i < |us| {
        OutcomesAt(us, vectorize, i);
      }
    }
    Successes(Outcomes(us, vectorize))
  }

  /** The loop pass for upload `i`, once every earlier upload was handled:
      its paper is handled next, or its failure ends the handled prefix. */
  lemma PassStep(us: seq<Upload>, vectorize: string -> Option<Features>, i: nat, paper: Option<Paper>)
    requires i < |us| && |Successes(Outcomes(us, vectorize)[..i])| == i
    requires paper == AnalyzedPaper(us[i], vectorize)
    ensures paper.None? ==> Successes(Outcomes(us, vectorize)) == Successes(Outcomes(us, vectorize)[..i])
    ensures paper.Some? ==>
              Successes(Outcomes(us, vectorize)[..i + 1]) == Successes(Outcomes(us, vectorize)[..i]) + [paper.value]
  {
    var os := Outcomes(us, vectorize);
    OutcomesAt(us, vectorize, i);
    SuccessesStep(os, i);
    if paper.None? {
      SuccessesStop(os, i + 1);
    }
  }

  /** The reports shown, one per handled paper, in upload order. */
  function Reports(ps: seq<Paper>): (r: seq<PaperReport>)
    ensures |r| == |ps|
    ensures forall i :: 0 <= i < |ps| ==> r[i] == ps[i].report
  {
    if ps == [] then [] else Reports(ps[..|ps| - 1]) + [ps[|ps| - 1].report]
  }

  /** `all_text` after the loop has appended the papers `ps`: one separating
      space per paper. */
  function AllText(ps: seq<Paper>): (r: string)
    ensures |r| >= |ps|
  {
    if ps == [] then "" else AllText(ps[..|ps| - 1]) + " " + ps[|ps| - 1].cleaned
  }

  lemma ReportsSnoc(ps: seq<Paper>, p: Paper)
    ensures Reports(ps + [p]) == Reports(ps) + [p.report]
  {
    assert (ps + [p])[..|ps|] == ps;
  }

  lemma AllTextSnoc(ps: seq<Paper>, p: Paper)
    ensures AllText(ps + [p]) == AllText(ps) + " " + p.cleaned
  {
    assert (ps + [p])[..|ps|] == ps;
  }

  /** The words of every paper, paper after paper. */
  function AllPaperWords(ps: seq<Paper>): seq<string> {
    if ps == [] then [] else AllPaperWords(ps[..|ps| - 1]) + Split(ps[|ps| - 1].cleaned)
  }

  /** The sum over the papers of each paper's own count of `w`. */
  function SumOfCounts(ps: seq<Paper>, w: string): int {
    if ps == [] then 0
    else SumOfCounts(ps[..|ps| - 1], w) + CounterGet(CounterItems(Split(ps[|ps| - 1].cleaned)), w)
  }

  /** The combined report, run over `all_text` as one single document; it fails
      exactly when the vectorizer fit on `all_text` raises. */
  function Combined(allText: string, vectorize: string -> Option<Features>): (r: Option<CombinedReport>)
    ensures r.None? <==> vectorize(allText).None?
    ensures r.Some? ==> |r.value.topics| <= CombinedTopN && |r.value.commonWords| <= CombinedTopN
  {
    match vectorize(allText)
    case None => None
    case Some(f) => Some(CombinedReport(ExtractTopics(f, CombinedTopN), MostCommon(Split(allText), CombinedTopN)))
  }

  /** Joining paragraphs with line feeds never glues words together: the words
      of a cleaned paper are the words of its paragraphs, in order. */
  lemma {:induction false} PaperWordsByParagraph(paragraphs: seq<string>)
    ensures Split(CleanText(JoinLines(paragraphs))) == ParagraphWords(paragraphs)
  {
    if |paragraphs| > 1 {
      var rest := JoinLines(paragraphs[1..]);
      PaperWordsByParagraph(paragraphs[1..]);
      CleanTextAppend(paragraphs[0] + "\n", rest);
      CleanTextAppend(paragraphs[0], "\n");
      assert CleanText("\n") == "\n";
      SplitAppendSep(CleanText(paragraphs[0]), '\n', CleanText(rest));
    }
  }

  /** The tokens of `all_text` are exactly the tokens of the papers, in order. */
  lemma {:induction false} AllTextTokens(ps: seq<Paper>)
    ensures Split(AllText(ps)) == AllPaperWords(ps)
  {
    if ps != [] {
      var n := |ps| - 1;
      AllTextTokens(ps[..n]);
      SplitAppendSep(AllText(ps[..n]), ' ', ps[n].cleaned);
    }
  }

  lemma {:induction false} AllPaperWordsCount(ps: seq<Paper>, w: string)
    ensures multiset(AllPaperWords(ps))[w] == SumOfCounts(ps, w)
  {
    if ps != [] {
      var n := |ps| - 1;
      AllPaperWordsCount(ps[..n], w);
      CounterItemsSpec(Split(ps[n].cleaned), w);
    }
  }

  /** In the combined analysis each word's count is the sum of its counts in the
      individual papers. */
  lemma CombinedCountIsSum(ps: seq<Paper>, w: string)
    ensures CounterGet(CounterItems(Split(AllText(ps))), w) == SumOfCounts(ps, w)
  {
    AllTextTokens(ps);
    CounterItemsSpec(Split(AllText(ps)), w);
    AllPaperWordsCount(ps, w);
  }

  /** The combined word counts add up to the number of words of all papers. */
  lemma {:induction false} CombinedTotal(ps: seq<Paper>)
    ensures Total(CounterItems(Split(AllText(ps)))) == |AllPaperWords(ps)|
  {
    AllTextTokens(ps);
    CounterTotal(Split(AllText(ps)));
  }

  /** One pass of the loop body for upload `u`: its topics and most common
      words, and the cleaned text that is appended to `all_text`; `None` when
      reading the file or fitting the vectorizer raises. */
  method AnalyzePaper(u: Upload, vectorize: string -> Option<Features>) returns (paper: Option<Paper>)
    ensures paper == AnalyzedPaper(u, vectorize)
  {
    if u.paragraphs.None? {
      return None;
    }
    var text := JoinLines(u.paragraphs.value);
    var cleaned := CleanText(text);
    var features := vectorize(cleaned);
    if features.None? {
      return None;
    }
    var topics := ExtractTopics(features.value, PaperTopN);
    var words := Split(cleaned);
    var wordCounts := CountWords(words);
    var commonWords := TopN(wordCounts, PaperTopN);
    paper := Some(Paper(PaperReport(u.name, topics, commonWords), cleaned));
  }

  /** The block under `len(uploaded_files) > 1`, run on `all_text`. */
  method AnalyzeCombined(allText: string, vectorize: string -> Option<Features>) returns (combined: Option<CombinedReport>)
    ensures combined == Combined(allText, vectorize)
  {
    var features := vectorize(allText);
    if features.None? {
      return None;
    }
    var combinedTopics := ExtractTopics(features.value, CombinedTopN);
    var words := Split(allText);
    var wordCounts := CountWords(words);
    combined := Some(CombinedReport(combinedTopics, TopN(wordCounts, CombinedTopN)));
  }

  /** The `for uploaded_file in uploaded_files` loop: a report for each paper in
      upload order until one fails, and `all_text` built from those papers;
      `failed` when a pass raised, which ends the run. */
  method AnalyzePapers(uploads: seq<Upload>, vectorize: string -> Option<Features>)
    returns (reports: seq<PaperReport>, allText: string, failed: bool)
    ensures reports == Reports(Successes(Outcomes(uploads, vectorize)))
    ensures allText == AllText(Successes(Outcomes(uploads, vectorize)))
    ensures failed <==> |Successes(Outcomes(uploads, vectorize))| < |uploads|
  {
    reports, allText := [], "";
    ghost var outcomes := Outcomes(uploads, vectorize);
    var i := 0;
    while i < |uploads|
      invariant 0 <= i <= |uploads|
      invariant |Successes(outcomes[..i])| == i
      invariant reports == Reports(Successes(outcomes[..i]))
      invariant allText == AllText(Successes(outcomes[..i]))
    {
      var paper := AnalyzePaper(uploads[i], vectorize);
      PassStep(uploads, vectorize, i, paper);
      if paper.None? {
        // the exception ends the run: no later paper is handled
        return reports, allText, true;
      }
      ReportsSnoc(Successes(outcomes[..i]), paper.value);
      AllTextSnoc(Successes(outcomes[..i]), paper.value);
      reports := reports + [paper.value.report];
      allText := allText + " " + paper.value.cleaned;
      i := i + 1;
    }
    assert outcomes[..|uploads|] == outcomes;
    failed := false;
  }

  /** The handler for `uploaded_files`. It shows a report for each paper in
      upload order until one fails, and builds `all_text` from those papers,
      whose words are all those papers' words in order. A failure ends the run
      (`failed`). The combined report exists exactly when more than one file
      was uploaded and nothing failed. */
  method AnalyzeUploads(uploads: seq<Upload>, vectorize: string -> Option<Features>)
    returns (reports: seq<PaperReport>, allText: string, combined: Option<CombinedReport>, failed: bool)
    ensures reports == Reports(Handled(uploads, vectorize))
    ensures allText == AllText(Handled(uploads, vectorize))
    ensures Split(allText) == AllPaperWords(Handled(uploads, vectorize))
    ensures |Handled(uploads, vectorize)| < |uploads| ==> failed
    ensures |Handled(uploads, vectorize)| == |uploads| ==> (failed <==> |uploads| > 1 && vectorize(allText).None?)
    ensures combined.Some? <==> |uploads| > 1 && !failed
    ensures combined.Some? ==> combined == Combined(allText, vectorize)
  {
    reports, allText, combined, failed := [], "", None, false;
    // `if uploaded_files:`
    if uploads != [] {
      reports, allText, failed := AnalyzePapers(uploads, vectorize);
      if !failed && |uploads| > 1 {
        combined := AnalyzeCombined(allText, vectorize);
        failed := combined.None?;
      }
    }
    AllTextTokens(Handled(uploads, vectorize));
  }
}
