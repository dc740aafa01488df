# Past Papers Topic Analyzer: a Dafny model of its analysis core

The Streamlit app `app.py` takes one or more uploaded `.docx` past papers and
handles each paper in turn:

- It extracts the paper's text.
- It cleans the text: lowercase, then delete every character outside `[a-z\s]`.
- It predicts the paper's ten "topics". A TF-IDF vectorizer is fitted on the
  cleaned text, its feature names are zipped with their scores into a dict,
  and the ten highest-scoring terms are returned.
- It plots the ten most frequent words, from `Counter(cleaned.split()).most_common(10)`.
- It appends `" " + cleaned` to `all_text`.

When more than one paper was uploaded, the same ranking and word count run once
more on `all_text`, this time with 15 terms and 15 words.

The model has seven modules:

- `TextClean` models `clean_text`, together with Python's whitespace class,
  which `\s` and `str.split()` share.
- `Tokenize` models `str.split()` with no separator.
- `Ordered` models first-seen order, the order of a `dict`'s keys.
- `Ranking` models `sorted(items, key=score, reverse=True)[:n]`. Python's sort
  is stable, and `extract_topics` and `most_common` both rank this way.
- `Topics` models `dict(zip(words, scores))` and `extract_topics`.
- `WordCount` models `Counter` and `most_common`.
- `Uploads` models the upload loop, the `all_text` accumulation and the
  combined block.

The fitted vectorizer is a parameter `vectorize: string -> Option<Features>`.
For a text it gives the feature names and the one row of scores that
`fit_transform([text])` produces. It gives `None` when the fit raises
`ValueError`, which happens when the text leaves an empty vocabulary. Scores are
integers, because only their order matters.

An upload is its name and, when python-docx can read it, the text of its
paragraphs. It is `None` when `Document(docx_file)` raises. Either exception
ends the script run. No later paper is handled and the combined block does not
run, but the reports already shown for earlier papers stay.

## Model

| member | source | states |
|---|---|---|
| TextClean.LowerChar | app.py:21 | lowercasing maps each ASCII capital to its lowercase letter, leaves every other character alone, and never yields a capital |
| TextClean.Lower | app.py:21 | `text.lower()` keeps the length and lowercases each character in place |
| TextClean.StripDisallowed | app.py:22 | the substitution never makes the text longer |
| TextClean.StripDisallowedKept | app.py:22 | every character the substitution leaves is a letter a-z or a whitespace character |
| TextClean.CleanText | app.py:20-23 | the cleaned text is never longer than the input (its alphabet, order and counts are in the next rows) |
| TextClean.CleanTextAlphabet | app.py:20-23 | each character of the cleaned text is a letter a-z or whitespace |
| TextClean.CleanTextIsSubsequence | app.py:22 | the cleaned text is a subsequence of the lowercased text, so the kept characters keep their order |
| TextClean.CleanTextCounts | app.py:22 | each letter a-z and each whitespace character appears in the cleaned text exactly as often as in the lowercased text; every other character appears zero times |
| TextClean.StripDisallowedUnique | app.py:22 | any string that is a subsequence of the text, holds only kept characters and keeps each kept character as often as the text has it is exactly what the substitution produces, so the three properties above characterise it |
| TextClean.CleanTextAppend | app.py:20-23 | cleaning a concatenation cleans each part separately, and a whitespace character is left unchanged |
| TextClean.CleanTextIdempotent | app.py:20-23 | cleaning an already cleaned text changes nothing |
| Tokenize.Split | app.py:61 | every word `str.split()` returns is non-empty and contains no whitespace |
| Tokenize.SplitAppendSep | app.py:61 | for any whitespace character `c`, splitting `a + c + b` gives the words of `a` followed by the words of `b` |
| Tokenize.SplitToken | app.py:61 | a non-empty word without whitespace splits to just itself |
| Tokenize.SplitJoinSpace | app.py:61 | for non-empty, whitespace-free words, splitting the space-joined list gives it back |
| Tokenize.CleanTextTokensAreLetters | app.py:55-61 | every word of a cleaned paper is a non-empty run of the letters a-z |
| Ordered.FirstSeen | app.py:33 | the first-seen list has no duplicates and is no longer than the input |
| Ordered.FirstSeenMembers | app.py:33 | the first-seen list holds exactly the elements of the input |
| Ordered.FirstSeenOrder | app.py:62 | the first-seen list is ordered by each element's first occurrence in the input |
| Ordered.FirstSeenOfDistinct | app.py:33 | a list without duplicates is its own first-seen list |
| Ranking.SortDesc | app.py:34 | sorting keeps the number of items (permutation, order and stability are stated by `SortDescSpec`) |
| Ranking.SortDescSpec | app.py:34 | the sort returns a permutation of the items in non-increasing score order, and for every score the items with that score keep their input order (stability) |
| Ranking.SortDescKeys | app.py:34 | sorting items with distinct keys keeps the keys distinct, and every sorted item comes from the input |
| Ranking.TopN | app.py:34-35 | the slice `[:n]` of the sorted items has min(n, #items) items (its contents are stated by the next rows) |
| Ranking.TopNSorted | app.py:34-35 | the top-n slice has min(n, #items) items, all taken from the input (as a sub-multiset), in non-increasing score order |
| Ranking.TopNSelectsHighest | app.py:34-35 | no item left out of the slice scores higher than any item kept |
| Ranking.TopNTies | app.py:34-35 | for every score, the kept items with that score are a prefix of the input's items with that score, so a cut through a tie keeps the earliest |
| Ranking.TopNKeys | app.py:35 | with distinct keys the returned keys are distinct, and each returned item is an input item |
| Topics.Zip | app.py:33 | `zip` pairs position by position and stops at the shorter list |
| Topics.DictPutKeys | app.py:33 | storing a key keeps an existing key in its place and appends a new key last |
| Topics.DictFromPairsKeys | app.py:33 | `dict(zip(...))` (`DictFromPairs`) lists each key once, in the order keys first occur among the pairs |
| Topics.DictFromPairsValues | app.py:33 | each key of `DictFromPairs` carries the score of the last pair with that key |
| Topics.DictFromDistinctPairs | app.py:33 | with distinct keys, the dict's items are the pairs unchanged |
| Topics.ExtractTopics | app.py:28-35 | `extract_topics` returns at most `top_n` terms (the exact count, membership and ranking are stated by the next three rows) |
| Topics.ExtractTopicsBounds | app.py:28-35 | `extract_topics` returns exactly min(top_n, #distinct feature names) terms, so at most top_n, and none twice |
| Topics.ExtractTopicsAreFeatures | app.py:31-35 | every returned term is one of the vectorizer's feature names |
| Topics.ExtractTopicsRanking | app.py:31-35 | for one score per distinct feature name, it returns min(top_n, #features) terms, each with its own score, in non-increasing score order; no feature left out scores higher than a term returned; among equal scores, terms come in feature order and the cut keeps the earliest |
| WordCount.CountMapSpec | app.py:62 | the counter's dict holds exactly the words read, each mapped to its number of occurrences |
| WordCount.CountWords | app.py:62 | the counting pass yields every distinct word once, in first-seen order, with its number of occurrences |
| WordCount.CounterItems | app.py:62 | the counter never has more entries than there are words (its keys and counts are stated by `CounterItemsSpec`) |
| WordCount.CounterItemsSpec | app.py:62 | the counter's keys are the words in first-seen order, without repeats; each count equals the word's occurrences, and 0 is returned for an unseen word; every listed count is at least 1 |
| WordCount.CounterTotal | app.py:61-62 | the counts add up to the number of words `split()` produced |
| WordCount.MostCommon | app.py:63 | `most_common(k)` returns at most k entries (contents and order are stated by the next rows) |
| WordCount.MostCommonSpec | app.py:63 | `most_common(k)` returns min(k, #distinct words) distinct words of the text, each with its number of occurrences, in non-increasing count order |
| WordCount.MostCommonSelects | app.py:63 | no word left out of `most_common(k)` occurs more often than a word it returns |
| WordCount.MostCommonTies | app.py:62-63 | words with equal counts come in first-encountered order, and a cut through a tie keeps the earliest |
| Uploads.PaperWordsByParagraph | app.py:13-15 | joining the paragraphs with `"\n"` never glues words together: the words of the cleaned paper are the words of its paragraphs, paragraph after paragraph |
| Uploads.AnalyzedPaperSpec | app.py:54-63 | one pass fails exactly when the file cannot be read or the vectorizer fit on the cleaned text raises; otherwise the paper keeps its name and its cleaned text and shows at most ten topics and at most ten common words |
| Uploads.AnalyzePaper | app.py:53-71 | the loop body computes exactly that pass, stopping at the first step that raises |
| Uploads.Successes | app.py:52-71 | a run whose steps each succeed or raise gets through no more steps than it has |
| Uploads.SuccessesSpec | app.py:52-71 | the steps a run gets through are the leading successes, in order, and the step right after them raised |
| Uploads.Handled | app.py:52-71 | the papers the loop gets through are the uploads before the first failing one, in upload order, each with its own analysis; if any upload is left, it is the one that failed |
| Uploads.Reports | app.py:52-69 | there is one paper report per handled paper, and the i-th report is the i-th paper's |
| Uploads.AllText | app.py:50-71 | `all_text` holds at least one character, its separating space, per handled paper (its words are stated by `AllTextTokens`) |
| Uploads.AllTextTokens | app.py:50-71 | the words of `all_text` are the words of every handled paper, paper after paper in upload order |
| Uploads.AllPaperWordsCount | app.py:71 | the number of occurrences of a word across all papers' words is the sum of its per-paper counts |
| Uploads.CombinedCountIsSum | app.py:71-82 | in the combined count, each word's count is the sum of its counts in the individual papers |
| Uploads.CombinedTotal | app.py:71-82 | the combined counts add up to the number of words of all papers |
| Uploads.Combined | app.py:76-83 | the combined analysis fails exactly when the vectorizer fit on `all_text` raises, and otherwise shows at most 15 topics and at most 15 common words |
| Uploads.AnalyzeCombined | app.py:76-83 | the combined block computes exactly that analysis of `all_text` as one document |
| Uploads.AnalyzePapers | app.py:52-71 | the loop yields the reports and the `all_text` of the papers it gets through, and reports a failure exactly when it stopped before the last upload |
| Uploads.AnalyzeUploads | app.py:49-83 | the handler shows one report per handled paper, in upload order, and builds `all_text` from those papers, whose words are all their words in order; a failing upload ends the run; with no failure in the loop, the run fails only if the combined fit raises; the combined report exists exactly when more than one file was uploaded and nothing failed, and is then the combined analysis of `all_text` |

## Left out

- The Streamlit page is output only and is not modelled: the title, subheaders, `st.write` and the matplotlib bar charts.
- `extract_text_from_docx` reads the file with python-docx. An upload is modelled by its name and, when the file can be read, its paragraphs' text, joined with `"\n"`. When `Document(docx_file)` raises, the upload has no paragraphs. The parsing itself is not modelled.
- `TfidfVectorizer` is not modelled: its fitting, the English stop-word list, the 5000-feature cap and the score arithmetic. The vectorizer becomes the parameter `vectorize`. Its `ValueError` for an empty vocabulary is modelled as `None`, but which texts trigger it is left to the parameter. `Topics.ExtractTopicsRanking` assumes what scikit-learn guarantees about the features: one score per feature name, and distinct names.
- Floating-point TF-IDF scores are modelled as integers. Ranking only compares scores, and a NaN score cannot arise from TF-IDF.
- TextClean.LowerChar lowercases ASCII only. Python's `str.lower()` also maps non-ASCII capitals. Those results then fall outside `[a-z\s]` and are deleted, except for two: the Kelvin sign U+212A becomes `k`, and U+0130 becomes `i` followed by a combining dot. The model does not capture these two.
- WordCount.MostCommon follows the documented meaning of `most_common(k)`, `sorted(items, key=count, reverse=True)[:k]`; CPython computes it with `heapq.nlargest`, which is documented to give the same result.
- Streamlit shows an exception's traceback on the page; the model only records that the run failed (`failed`).
- The unused imports (`os`, `joblib`) have no behaviour to model.
