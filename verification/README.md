# Prompt Analyzer in Dafny

A model of the text-analysis core of Prompt_Analyzer. `TextAnalyzerCore` holds one text
and computes everything else from it:

- `fixed_text` applies comma spacing, then sentence formatting;
- `count_words`, `count_sentences` and `count_numbers` are the three counters;
- `most_common_word` reports all tied most frequent words;
- `analyze` bundles these results.

On top sits the session object `TextAnalyzerApp`. It holds at most one analyzer, accepts
a new text through `enter_text`, and answers `get_report` and the four `show_*` accessors.

Every operation is a pure function over `string` (`seq<char>`). Characters are treated as
ASCII:

- whitespace is what Python's `str.isspace` accepts in ASCII (codes 9–13 and 28–32);
- `\w` is `[A-Za-z0-9_]`;
- `\d` is `[0-9]`;
- case mapping touches only `A–Z` and `a–z`.

One generic tokenizer, `Tokens.Runs(s, p)`, gives the maximal runs of characters that
satisfy `p`. It stands for `str.split()` (runs of non-whitespace), `\d+` (runs of digits)
and `\b\w+\b` (runs of word characters).

Modules, in dependency order:

| file | module | models |
|---|---|---|
| `wrappers.dfy` | `Wrappers` | `Option`, `Result`, `Outcome` |
| `char_classes.dfy` | `CharClasses` | character classes, `lower()`, `capitalize()` |
| `tokens.dfy` | `Tokens` | maximal runs, filters, `join` |
| `sentences.dfy` | `Sentences` | `cap_sentence`, `strip`, `form_sentence` |
| `comma_spacing.dfy` | `CommaSpacing` | the comma `re.sub` of `fixed_text` |
| `counting.dfy` | `Counting` | `count_words`, `count_numbers`, `count_sentences` |
| `most_common.dfy` | `MostCommon` | `most_common_word`, as a function and as the source's loops |
| `prompt_analyzer.dfy` | `PromptAnalyzer` | `TextAnalyzerCore`, `TextAnalyzerStorage` |
| `analyzer_app.dfy` | `AnalyzerApp` | `TextAnalyzerApp` |
| `samples.dfy` | `Samples` | the counters and `most_common_word` on concrete texts |

### Behaviour worth noting

The model keeps these points of the code as they are:

- `enter_text` compares the raw `len(text)` with 15 and does not trim first. Only the
  command-line front end strips the text before calling it.
- `form_sentence` splits only at whitespace runs that come right after `.`, `!` or `?`, and
  the punctuation stays in the fragment before the split.
- An empty last fragment is not dropped. A text whose trailing whitespace follows `.`, `!`
  or `?` is formatted with one trailing space, and no other text ends in whitespace
  (`Sentences.FormSentence`, `Sentences.TrailingEmptyPiece`).
- Each fragment is split on whitespace and rejoined with single spaces. Leading, trailing
  and repeated whitespace inside it disappears.
- Only the first whitespace-separated word of a fragment changes. `capitalize()` upper-cases
  its first character and lower-cases the rest of that word. A fragment that starts with a
  digit or a punctuation mark gets no capital letter.
- On text with no word character, `most_common_word` fails because `max()` of an empty
  sequence raises `ValueError`. It does not return an empty result. `analyze`,
  `get_report` and `show_most_common_words` pass the failure on.
- With no analyzer, `get_report` returns a one-key error record and each `show_*` returns
  a message. Neither raises.

## Model

| member | source | states |
|---|---|---|
| CharClasses.Capitalize | prompt_analyzer.py:27 | `str.capitalize`: same length. The first character is not lower-case and the others are not upper-case. Lower-casing gives the same string as lower-casing the input. Whitespace positions are unchanged. |
| CharClasses.LowerStr | prompt_analyzer.py:107 | `str.lower()`: same length, and each character is its own lower-case form (`A–Z` become `a–z`, nothing else changes). `LowerStrAppend` adds that it distributes over concatenation. |
| Tokens.Runs | prompt_analyzer.py:25 | The tokenizer behind `split()`, `\d+` and `\b\w+\b`. Its properties are proved as lemmas: `RunsAreRuns` (each token is a non-empty run), `RunsFlatten` (the tokens hold exactly the matching characters), `RunsEmptyIff` (no tokens exactly when no character matches) and `RunsOfJoin` (the split/join round trip). |
| Tokens.RunsAreRuns | prompt_analyzer.py:25 | Every token is non-empty and made only of characters that satisfy the predicate. |
| Tokens.RunsOfJoin | prompt_analyzer.py:25-28 | Splitting a single-space join of non-empty words with no whitespace gives back exactly those words. This is the `split`/`join` round trip `cap_sentence` relies on. |
| Tokens.RunsFlatten | prompt_analyzer.py:25 | Concatenating the tokens gives the input with every non-token character removed. |
| Tokens.RunsAppend | prompt_analyzer.py:25 | Tokenizing a concatenation is concatenating the tokenizations, when the seam is not inside a run. |
| Tokens.RunsEmptyIff | prompt_analyzer.py:25 | There are no tokens exactly when no character belongs to a token. |
| Tokens.RunsCountStarts | prompt_analyzer.py:102 | The number of runs equals the number of positions where a run starts. |
| Tokens.Keep | prompt_analyzer.py:97 | The guarded list comprehension `[s for s in sentences if s.strip()]`: never longer than its input. Its partners are `KeepSpec` (exactly the elements that pass the guard are kept), `KeepCounts` (every copy of them is kept) and `KeepKeep`. |
| Tokens.KeepSpec | prompt_analyzer.py:97 | An element is in the result exactly when it is in the input and passes the guard. |
| Tokens.KeepCounts | prompt_analyzer.py:97 | Each element that passes the guard is kept as many times as it occurs, and any other element not at all. The `len` of the filtered list counts the passing pieces with their repetitions. |
| Tokens.KeepKeep | prompt_analyzer.py:97 | Filtering first by a weaker guard and then by a stronger one is the same as filtering by the stronger one alone. |
| Tokens.Join | prompt_analyzer.py:28 | `sep.join(ws)`, also used at lines 34 and 116. Its partners are `JoinLength` (the length is the words' total plus one separator between each pair of neighbours) and `RunsOfJoin` (tokenizing the join gives the words back). |
| Tokens.JoinLength | prompt_analyzer.py:28 | A join of `n > 0` words is as long as the words together plus `n - 1` separators. |
| Sentences.Words | prompt_analyzer.py:25 | `str.split()` is the runs of non-whitespace. By `RunsAreRuns` each word is non-empty with no whitespace. By `RunsFlatten` the words together are the input with its whitespace removed. By `RunsOfJoin` splitting a single-space join of such words gives them back. |
| Sentences.CapSentence | prompt_analyzer.py:24-28 | `cap_sentence`: its words are the input's words with the first one capitalized. Its whitespace is single spaces strictly between words. It is empty exactly when the input is blank. |
| Sentences.Strip | prompt_analyzer.py:33 | `str.strip()`: same words as the input. Neither end is whitespace. The result is empty exactly when the input is blank. Its partner `StripTrims` shows that only the two ends are removed. |
| Sentences.StripTrims | prompt_analyzer.py:33 | The stripped text is a contiguous piece of the input with only whitespace before it and only whitespace after it. |
| Sentences.Fragments | prompt_analyzer.py:32 | `re.split` always yields at least one fragment. Its partners are `FragmentsSplit` and `FragmentsOfInterleave`. |
| Sentences.FirstCut | prompt_analyzer.py:32 | Either no split point exists, or the text is the first fragment, then a whitespace run, then the rest. The fragment ends in `.`, `!` or `?` and contains no earlier split point, and the rest does not start with whitespace. |
| Sentences.CutUnique | prompt_analyzer.py:32 | Any such decomposition is the one `FirstCut` finds, so the split is determined by the text. |
| Sentences.FragmentsSplit | prompt_analyzer.py:32 | The fragments are well split: no fragment holds a split point, every fragment but the last ends in sentence punctuation, and every fragment but the first starts with a non-whitespace character. There is one fewer gap than fragments, each gap is a whitespace run, and interleaving fragments and gaps rebuilds the text. |
| Sentences.FragmentsOfInterleave | prompt_analyzer.py:32 | Round trip: splitting an interleaving of well-split fragments and whitespace gaps gives back those fragments. |
| Sentences.CapAll | prompt_analyzer.py:33 | The comprehension `[cap_sentence(s.strip()) for s in sentences]` gives one formatted piece per fragment. Its partners are `FlatWordsCapAll` and `CapAllShape`. |
| Sentences.FlatWordsCapAll | prompt_analyzer.py:33 | The words of the formatted pieces, in order, are the fragments' words with the first word of each fragment capitalized. |
| Sentences.CapAllShape | prompt_analyzer.py:33-34 | Joining the capitalized fragments with single spaces leaves only single spaces, never at the start and never two in a row. |
| Sentences.TrailingEmptyPiece | prompt_analyzer.py:32 | The text splits with an empty last fragment exactly when its trailing whitespace is non-empty, follows `.`, `!` or `?`, and is not the whole text. |
| Sentences.JoinCapAllTrailing | prompt_analyzer.py:33-34 | The joined capitalized fragments end in whitespace exactly when there are at least two fragments and the last one is empty. |
| Sentences.FormSentence | prompt_analyzer.py:31-34 | `form_sentence`: every whitespace character of the result is a single space that follows a non-whitespace character. The result ends in a space exactly when the input's trailing whitespace follows `.`, `!` or `?`. |
| Sentences.FormSentenceWords | prompt_analyzer.py:31-34 | The input's words are the fragments' words in order. The output's words are the same with the first word of every fragment capitalized. |
| CommaSpacing.SpaceCommas | prompt_analyzer.py:81 | The result is at least as long as the input and at most half as long again, because each inserted space uses up a comma and the character after it. |
| CommaSpacing.SpaceCommasUnchanged | prompt_analyzer.py:81 | The text comes back unchanged exactly when no comma is directly followed by a non-whitespace character. |
| CommaSpacing.SpaceCommasSpec | prompt_analyzer.py:81 | The `re.sub` scan equals an independent definition by position. A space is inserted after exactly those commas followed by a non-whitespace character with an even number of commas right before them (the match consumes the next character). Every other character is copied. |
| CommaSpacing.SpaceCommasRoundTrip | prompt_analyzer.py:81 | Deleting the inserted spaces gives the input back. |
| CommaSpacing.SpaceCommasKeepsText | prompt_analyzer.py:81 | The non-whitespace characters of the result are exactly those of the input, in order. |
| Counting.WordMatchesFrom | prompt_analyzer.py:91 | The regex matches from a position on are at most the characters left. Their partner is `MatchesAreLetterRuns`. |
| Counting.MatchIffLetterRun | prompt_analyzer.py:91 | `\b[a-zA-Z]+\b` matches at the start of a run of word characters exactly when that run is all letters. |
| Counting.MatchesAreLetterRuns | prompt_analyzer.py:91 | The number of regex matches equals the number of maximal word-character runs made only of letters. |
| Counting.CountWords | prompt_analyzer.py:90-92 | `count_words` equals the number of letter-only maximal runs of word characters. `abc123` and `a_b` contribute nothing. |
| Counting.CountNumbers | prompt_analyzer.py:101-103 | `count_numbers` equals the number of digits that do not follow a digit. It is zero exactly when the text has no digit. |
| Counting.SplitOnStops | prompt_analyzer.py:96 | `re.split(r'[.!?]+', …)` always yields at least one piece. Its partners are `SplitCount` and `SplitPieces`. |
| Counting.SplitCount | prompt_analyzer.py:96 | `re.split(r'[.!?]+', …)` yields one more piece than there are maximal runs of stop characters. |
| Counting.SplitPieces | prompt_analyzer.py:96 | The non-empty pieces are exactly the maximal runs of characters that are not stops. |
| Counting.CountSentences | prompt_analyzer.py:95-98 | `count_sentences` equals the number of maximal non-stop runs that are not blank. |
| Counting.CountSentencesBound | prompt_analyzer.py:95-98 | The sentence count is at most the number of stop runs plus one, and at most the number of non-stop runs. |
| Counting.CountSentencesBlank | prompt_analyzer.py:95-98 | Empty or whitespace-only text has no sentence. |
| Counting.CountSentencesOne | prompt_analyzer.py:95-98 | Non-blank text without `.`, `!` or `?` is one sentence. |
| MostCommon.LowerWords | prompt_analyzer.py:107 | `re.findall(r'\b\w+\b', s.lower())`: the tokens `most_common_word` counts. Its partner `LowerWordsSpec` characterizes them, and `MostCommonWordsSpec` states the result over them. |
| MostCommon.LowerWordsSpec | prompt_analyzer.py:107 | Each token is a non-empty run of word characters. Together the tokens hold every word character of the lower-cased text, in order. There are no tokens exactly when the text has no word character. |
| MostCommon.FirstIndex | prompt_analyzer.py:110-111 | The position of the first occurrence: the word is there and not before it. |
| MostCommon.DedupSpec | prompt_analyzer.py:110-111 | The dictionary keys are exactly the distinct tokens, in order of first occurrence. |
| MostCommon.MaxOverSpec | prompt_analyzer.py:113 | The computed maximum bounds every key's count and is reached by some key. |
| MostCommon.TopsSpec | prompt_analyzer.py:114 | The comprehension keeps exactly the keys with the given count and preserves their order. |
| MostCommon.TopWordsSpec | prompt_analyzer.py:107-116 | The reported words are non-empty, distinct, in first-occurrence order, and occur in the text. Their count is the maximum, and every token with the maximum count is reported. |
| MostCommon.MostCommonWord | prompt_analyzer.py:106-116 | `most_common_word` raises exactly on text without a word character, and the error is the empty-`max()` one. |
| MostCommon.MostCommonWordSplits | prompt_analyzer.py:116 | Round trip for `", ".join`: the word runs of the reported string are exactly the reported words. |
| MostCommon.MostCommonWordsSpec | prompt_analyzer.py:106-116 | `most_common_word` fails exactly on text without a word character. Otherwise it reports the words of `TopWordsSpec` over the lower-cased tokens. |
| MostCommon.TallyStep | prompt_analyzer.py:110-111 | Counting one more token keeps the keys in first-occurrence order and every count exact. |
| MostCommon.CountTokens | prompt_analyzer.py:108-111 | The counting loop builds keys in insertion order, and each key's count is the token's number of occurrences. |
| MostCommon.LargestCount | prompt_analyzer.py:113 | The maximum loop computes the largest count. |
| MostCommon.KeysWithCount | prompt_analyzer.py:114 | The collecting loop keeps the keys with the largest count. |
| MostCommon.MostCommonWordLoop | prompt_analyzer.py:106-116 | The source's loops compute the same result as the functional definition, failure included. |
| PromptAnalyzer.FixedText | prompt_analyzer.py:80-82 | `fixed_text`: whitespace is single spaces following non-whitespace. It ends in a space exactly when the comma-spaced text's trailing whitespace follows `.`, `!` or `?`. Its words are those of the comma-spaced text with each fragment's first word capitalized. |
| PromptAnalyzer.FixedTextKeepsText | prompt_analyzer.py:80-82 | Up to letter case, `fixed_text` keeps the non-whitespace characters of the input in order. |
| PromptAnalyzer.FixedTextKeepsMarks | prompt_analyzer.py:80-82 | Commas, digits, punctuation and every other non-letter, non-whitespace character are neither added nor removed. |
| PromptAnalyzer.UpdateText | prompt_analyzer.py:74-76 | `update_text` replaces the text. |
| PromptAnalyzer.Len | prompt_analyzer.py:66-67 | `__len__` is the number of letter-only word-character runs. |
| PromptAnalyzer.Analyze | prompt_analyzer.py:119-128 | `analyze` fails exactly when the text has no word character. Otherwise its record holds the text, `fixed_text`, the word count that `__len__` gives, the number of non-blank non-stop runs, the number of digits that do not follow a digit, and the `most_common_word` result. |
| Samples.CountWordsSample | prompt_analyzer.py:90-92 | `count_words("Hello world 2024!")` is 2. The digit run `2024` is no word. |
| Samples.CountNumbersSample | prompt_analyzer.py:101-103 | `count_numbers("Room 42 has 3 exits")` is 2. |
| Samples.ThreeSentences | prompt_analyzer.py:95-98 | Three non-blank pieces without stops, each closed by one stop character, count as three sentences. |
| Samples.CountSentencesSample | prompt_analyzer.py:95-98 | `count_sentences("Hi. How are you? Fine!")` is 3. |
| Samples.CountSentencesSampleOne | prompt_analyzer.py:95-98 | `count_sentences("No punctuation here")` is 1. |
| Samples.CountSentencesSampleBlank | prompt_analyzer.py:95-98 | `count_sentences("   ")` is 0. |
| Samples.MostCommonWordSample | prompt_analyzer.py:106-116 | `most_common_word("cat dog cat dog bird")` is `"cat, dog"`. Both tied words are reported, in first-seen order. |
| AnalyzerApp.NewApp | main.py:7-8 | A new session has no analyzer. |
| AnalyzerApp.EnterText | main.py:11-15 | Rejects exactly the texts shorter than 15 characters and leaves the session unchanged. Otherwise installs an analyzer holding exactly the text. |
| AnalyzerApp.GetReport | main.py:19-30 | Without an analyzer, returns the error record with the fixed message. With one, fails exactly when the text has no word character. |
| AnalyzerApp.ShowNumOfWords | main.py:33-37 | Returns the message exactly when there is no analyzer, and otherwise the word count. |
| AnalyzerApp.ShowNumOfSentences | main.py:40-44 | Returns the message exactly when there is no analyzer, and otherwise the number of non-blank non-stop runs. |
| AnalyzerApp.ShowCountOfNum | main.py:47-51 | Returns the message exactly when there is no analyzer. Otherwise it returns the number of digits that do not follow a digit, which is zero exactly when the text has no digit. |
| AnalyzerApp.ShowMostCommonWords | main.py:54-58 | Returns the message without an analyzer, and otherwise `most_common_word` of the text. |
| AnalyzerApp.ReportAgreesWithAccessors | main.py:24-30 | The report's fields equal `fixed_text` and what the four `show_*` accessors return. |
| AnalyzerApp.ReportAgreesWithAnalyze | main.py:24-30 | The report and `analyze` succeed or fail together and agree field by field. |
| AnalyzerApp.EnterTextForgets | main.py:14 | After a successful `enter_text`, the session and its report depend only on the new text. |
| AnalyzerApp.RejectedTextKeepsReport | main.py:12-13 | A rejected text changes neither the report nor any of the four `show_*` accessors. |

## Left out

- Logging: `logging.basicConfig`, `logging.info`, `logger.warning` and `logger.py` are side effects that do not affect any result.
- `TextAnalyzerCore._instance_count` and `get_instance_count`: a process-wide counter that no result depends on.
- `__repr__`: a debugging string built from the text and two counters that are modelled.
- `TextProcessor`, an abstract base class with no behaviour of its own. `clean_text` returns `fixed_text`, which is modelled as `PromptAnalyzer.FixedText`.
- `cli.py` and `flask_app.py`: interactive and HTTP I/O. The `.strip()` the command line applies before `enter_text` is not part of `enter_text`.
- Non-ASCII text: Python's Unicode `\w`, `\d`, `\s`, `str.isspace`, `lower()` and `capitalize()` are modelled only for ASCII. Other characters count as neither word characters nor whitespace, and case mapping leaves them unchanged.
- Exceptions become values: `ValueError` from `enter_text` is `Fail(TooShort)`, and `ValueError` from `max()` is `Failure(NoWords)`. Their message texts are not modelled.
- Calling `get_report` or an accessor twice without `enter_text` in between gives the same result. This holds because every member is a pure function of the session value, so no lemma states it.
