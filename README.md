# style-transformer core, modelled in Dafny

This project models the two core components of the style-transformer repository and proves
properties about them.

- `StyleTransformer` in `src/style_transform.py` rewrites a text in a given style with a
  language model. It works in steps:
  - It derives a character budget from the model's context length.
  - It cuts the text into overlapping windows.
  - It sends one prompt per window to LM Studio or to a HuggingFace model.
  - It merges the replies sentence by sentence, dropping repeats.
- `TextPreprocessor` in `src/text_preprocessing.py` corrects a text sentence by sentence.
  English uses LanguageTool; Turkish uses a `StyleTransformer` prompted for grammar
  correction. It returns the corrected text and a list of correction records.

The files:

| file | module | what it holds |
|---|---|---|
| `results.dfy` | `Results` | the exceptions as an `Error` datatype; `Result` and `Option` |
| `text.dfy` | `Text` | `str.strip()` (Python's whitespace set), ASCII `lower()`, substring `in`, `replace(p, "")`, `' '.join` |
| `context_budget.dfy` | `ContextBudget` | `MODEL_CONTEXT_LIMITS`, `get_model_context_length`, the window and overlap derivation |
| `splitter.dfy` | `Splitter` | `range(0, n, step)` and `split_with_overlap` |
| `merger.dfy` | `Merger` | the sentence-merge rule of `merge_chunks`, its inner loop as a method, and its properties |
| `style_transform.dfy` | `StyleTransform` | mode normalisation, `build_prompt`, the LM Studio failure policy, the transform loop, and class `StyleTransformer` |
| `text_preprocessing.dfy` | `TextPreprocessing` | language validation, both branches of `correct_text`, `correct_sentence_tr_with_llm`, and class `TextPreprocessor` |

The collaborators the Python code calls are modelled as function-valued parameters.
- A generative backend is `(model name, prompt) -> Result<string>`. There is one for LM
  Studio's HTTP endpoint and one for the HuggingFace `generate` path (`Backends`).
- The LM Studio reply is modelled as a function of the model name and the prompt. The
  request samples at temperature 0.7 (src/style_transform.py:91), so the server may answer
  two identical requests differently, where the model gives them the same reply.
- NLTK's `sent_tokenize` is `(language, text) -> seq<string>` (`Tokenizer`).
- The LanguageTool server is a `LanguageTool` value. It holds `check` (the number of matches
  or an exception), `correct` (the corrected sentence or an exception), and `recheck`, which
  is the answer to the second `check` call made while the records are built.

Python's loops become Dafny methods with loop invariants:
- `transform` (`StyleTransformer.Transform`);
- the two loops of `merge_chunks` (`StyleTransformer.MergeChunks` and `Merger.NewSentences`);
- the English and Turkish loops of `correct_text` (`TextPreprocessor.CorrectEnglish` and
  `TextPreprocessor.CorrectTurkish`).

Each of these methods is proved equal to a specification function. Those functions are:
`TransformOf`, `MergeOf`, `CorrectTextEn` and `CorrectTextTr`. The properties are proved as
lemmas about the functions. The expressions in the source are written as functions:
- the table lookup;
- `build_prompt`;
- the `split_with_overlap` comprehension;
- the English correction-list comprehension.

The model follows the code, including where it departs from the intended design:
- **Turkish LM Studio outage.** A failing LM Studio call yields the placeholder
  `"Error during transformation."` and does not raise. So in Turkish correction an
  unreachable LM Studio does not keep the sentence. Instead the sentence is "corrected" to
  the placeholder, and that change is recorded (`LmStudioOutageBecomesCorrection`).
- **The placeholder is ambiguous.** It is an ordinary string. A backend that returns that
  exact text gives the same chunk result as a failed call (`PlaceholderIsAmbiguous`).
- **English `num_issues`.** This count comes from a second `check` call, and that call is not
  inside the `try`. If it fails, `correct_text` raises (`RecordsEnSpec`). With a checker
  that gives the same answer both times it never raises (`DeterministicCheckerNeverRaises`).
- **The HF branch of `transform`.** This branch is taken whenever the mode contains `"hf"`.
  The HuggingFace model and tokenizer are loaded only when the mode equals `"hf"`. For any
  other mode containing `"hf"`, the branch raises `AttributeError` (`ModelNotLoaded`).
- **Two windows for a text shorter than the window.** The split steps by `window - overlap`,
  not by the window. A text with `step < len <= window` fits in one window but gives two
  chunks, and the second is a suffix of the first (`SplitTwo`). Only a text no longer than
  the step gives one chunk (`SplitSingle`).
- **Segmentation language.** `correct_text` always splits sentences with the English
  tokenizer, whatever the language. `merge_chunks` uses the Turkish tokenizer for `"tr"`.

## Model

| member | source | states |
|---|---|---|
| ContextBudget.LookupLimit | src/style_transform.py:25-30 | the scan returns either the default 4096 or a limit taken from the table |
| ContextBudget.ContextLength | src/style_transform.py:12-30 | the context length is at least 1 and is either 4096 or one of the table's limits; the name is lowercased before the scan |
| ContextBudget.LookupFirstMatch | src/style_transform.py:27-29 | the first key in table order that is a substring of the name decides the limit, even when later keys match too |
| ContextBudget.LookupNoMatch | src/style_transform.py:27-30 | when no key is a substring of the name, the result is the default 4096 |
| ContextBudget.WindowSize | src/style_transform.py:39-41 | the window is the context length in tokens times 3 characters per token |
| ContextBudget.OverlapChars | src/style_transform.py:42-43 | `int(window * 0.2)` is the floor of window/5, so `5*overlap <= window < 5*overlap + 5`; a positive window has an overlap strictly below it |
| ContextBudget.BudgetStepPositive | src/style_transform.py:38-43 | for every model name, `0 <= overlap_chars < window_size`, so the split step is at least 1 |
| ContextBudget.UnknownModelBudget | src/style_transform.py:38-43 | a name that no key matches gives context 4096, window 12288 and overlap 2457 |
| ContextBudget.KeysAreLowercase | src/style_transform.py:12-23 | every key of `MODEL_CONTEXT_LIMITS` is written in lower case, so it can match the lowercased name whatever the case of the name as given |
| ContextBudget.KeysMarked | src/style_transform.py:12-23 | every table key contains a digit or an `r` |
| ContextBudget.UnmarkedNameIsUnknown | src/style_transform.py:25-30 | a name with no digit and no `r`/`R` matches no key and gets the default limit |
| ContextBudget.DefaultModelIsUnknown | src/style_transform.py:33-43 | the constructor's default model name `local-model` gets the default limit |
| Splitter.Range | src/style_transform.py:113 | `range(start, stop, step)` is empty iff `start >= stop`; every value lies in `[start, stop)`; it starts at `start`; the last value is within one step of `stop` |
| Splitter.RangeAt | src/style_transform.py:113 | the k-th value of the range is `start + k*step` |
| Splitter.RangeCount | src/style_transform.py:113 | `range(0, n, step)` has `ceil(n/step)` values |
| Splitter.SplitWithOverlap | src/style_transform.py:111-113 | the chunks are `text[i : i + window]` for each `i` in `range(0, len(text), window - overlap)`, cut at the end of the text; their properties are the `Split…` lemmas below |
| Splitter.SplitCount | src/style_transform.py:111-115 | the split gives `ceil(len(text)/step)` chunks |
| Splitter.SplitChunkAt | src/style_transform.py:112-113 | chunk k is `text[k*step : min(k*step + window, len)]`, and `k*step < len` |
| Splitter.SplitEmpty | src/style_transform.py:113 | an empty text has no chunks |
| Splitter.SplitChunkBounds | src/style_transform.py:113 | every chunk is non-empty and at most `window_size` long |
| Splitter.SplitStarts | src/style_transform.py:112-113 | chunk starts begin at 0, grow by exactly `step`, and the last window reaches the end of the text |
| Splitter.SplitCoverage | src/style_transform.py:113 | with a non-negative overlap, every character of the text lies in some chunk at the matching offset |
| Splitter.SplitOverlap | src/style_transform.py:112-113 | with a non-negative overlap, each chunk after its first `step` characters is a prefix of the next chunk |
| Splitter.SplitSingle | src/style_transform.py:113 | there is exactly one chunk iff `0 < len(text) <= step` |
| Splitter.SplitTwo | src/style_transform.py:113 | a text with `step < len <= window` (and `2*overlap <= window`) splits into `[text, text[step:]]` |
| Text.Strip | src/style_transform.py:99 | `str.strip()` over Python's whitespace set: what remains is a contiguous middle of the string with no whitespace at either end (`StripSpec`) |
| Text.Join | src/style_transform.py:141 | `sep.join(xs)`: no strings give `""`, one string gives itself, and otherwise the first string, the separator and the join of the rest |
| Text.StripEmpty | src/style_transform.py:133-134 | a sentence strips to `""` exactly when it is all whitespace, which is when `merge_chunks` drops it |
| Text.StripOfStripped | src/style_transform.py:99 | a string with no whitespace at either end is unchanged by `strip()` |
| Text.Lower | src/style_transform.py:26 | lowercasing keeps the length and lowercases each character |
| Text.IsSubstring | src/style_transform.py:28 | Python's `k in s` on strings: `k` occurs as a contiguous run in `s`, starting at some position; the same test is made at lines 49 and 76 |
| Text.SubstringChars | src/style_transform.py:28 | every character of a key that occurs in a name also occurs in the name |
| Text.RemoveAll | src/style_transform.py:48 | `replace(p, "")` never lengthens the string; it leaves the string unchanged when `p` does not occur, and is shorter by at least the length of `p` when it does; which characters go is stated by `RemoveAllFirst` |
| Text.RemoveAllLeading | src/style_transform.py:48 | an occurrence of `p` at the front is removed, and the rest of the string is treated as if it began after it |
| Text.RemoveAllFirst | src/style_transform.py:48 | the scan is left to right and does not overlap: at the first occurrence of `p`, everything before it is kept unchanged, the occurrence is removed, and the scan goes on right after it |
| Merger.TokenizerLanguage | src/style_transform.py:125-126 | the tokenizer language is `turkish` exactly when the language is `tr`, and `english` otherwise |
| Merger.Dedup | src/style_transform.py:130-136 | the merge rule over the stripped sentences: keep a sentence when it is non-empty and not kept before; its properties are `DedupSpec` and the lemmas below |
| Merger.DedupSpec | src/style_transform.py:132-136 | every kept sentence is non-empty and comes from the input; every non-empty input sentence is kept; no sentence is kept twice |
| Merger.DedupAppend | src/style_transform.py:128-139 | merging more sentences only appends: the sentences kept so far stay first, followed by the new sentences not already kept |
| Merger.DedupIsFirstSeen | src/style_transform.py:121-139 | the merge rule equals a front-to-back formulation with a `seen` set that starts empty |
| Merger.DedupFirstOccurrenceOrder | src/style_transform.py:128-139 | sentences come out in the order of their first occurrence |
| Merger.DedupDistinct | src/style_transform.py:132-136 | with no empty or repeated sentences, nothing is dropped |
| Merger.MergeStep | src/style_transform.py:133-136 | one step of the inner loop updates the kept list and the `seen` set as the merge rule says |
| Merger.NewSentences | src/style_transform.py:130-136 | the inner loop adds exactly what the merge rule adds for the chunk's sentences, and `seen` is the set of everything kept |
| Merger.SentencesOf | src/style_transform.py:128-129 | the tokenizer applied to each chunk in chunk order, all sentences concatenated in that order (`SentencesOfChunk`) |
| Merger.MergedSentences | src/style_transform.py:125-139 | the merged sentence list: every chunk's sentences from the tokenizer for the language, in chunk order, stripped, then the merge rule |
| Merger.MergeOf | src/style_transform.py:118-143 | `merge_chunks`'s result: the merged sentences joined with one space |
| Merger.SentencesOfChunk | src/style_transform.py:128-129 | the sentences of chunk c come right after those of the chunks before it, in order |
| Merger.MergeKeepsEverySentence | src/style_transform.py:128-141 | every non-empty stripped sentence of every chunk is in the merged output |
| Merger.SharedSentenceMergedOnce | src/style_transform.py:128-141 | a sentence that two chunks share, as in their overlap, appears exactly once in the output |
| Merger.MergeOfRepeated | src/style_transform.py:128-141 | chunks that all hold the same single stripped sentence merge to that sentence |
| Merger.MergeOfNoChunks | src/style_transform.py:141 | zero chunks give `""` |
| StyleTransform.NormalizeMode | src/style_transform.py:46-50 | an `LM Studio:` prefix selects LM Studio, and the name becomes the rest after the prefix with every further occurrence removed, stripped; without the prefix the name is unchanged, a name with `/` keeps `hf` and switches every other mode to LM Studio, and a name without `/` keeps the mode as given; the mode is `hf` afterwards iff it was `hf` and there was no prefix |
| StyleTransform.NormalizePrefixed | src/style_transform.py:46-48 | `"LM Studio:" + rest`, with no further prefix in `rest`, gives mode `lm_studio` and model name `rest.strip()`, whatever mode was asked for |
| StyleTransform.SlashNameMeansHfOrLmStudio | src/style_transform.py:46-50 | after normalisation, a name containing `/` has mode `lm_studio` or `hf` |
| StyleTransform.BuildPrompt | src/style_transform.py:58-64 | the prompt is the language's instruction head, then the text verbatim, then the language's tail; every language except `tr` gets the English instruction |
| StyleTransform.LmStudioTransform | src/style_transform.py:85-102 | a failed LM Studio call gives the placeholder `Error during transformation.`; a reply gives its content stripped, with no whitespace left at either end |
| StyleTransform.ChunkResult | src/style_transform.py:73-79 | one loop iteration: mode `lm_studio` never fails; mode `hf` gives the HF backend's answer to the chunk's prompt; any other mode fails with AttributeError if it contains `hf` or the name contains `/`, and with NotImplementedError otherwise |
| StyleTransform.Collect | src/style_transform.py:71-80 | the transform loop: one call per chunk, in chunk order, results appended in that order; the first exception ends the loop and is raised (`CollectSpec`, `CollectStop`, `CollectTotal`) |
| StyleTransform.CollectSpec | src/style_transform.py:71-80 | on success there is one result per chunk, each that chunk's own result; on failure the error is the first failing chunk's, and every chunk before it succeeded |
| StyleTransform.CollectStop | src/style_transform.py:71-79 | a failure part way through makes the whole loop fail with that error |
| StyleTransform.CollectTotal | src/style_transform.py:71-80 | a step that never fails makes the loop succeed with exactly the step's results |
| StyleTransform.TransformOf | src/style_transform.py:66-83 | `transform`'s result: the chunk results of the split text, each in order, merged; or the first chunk's exception |
| StyleTransform.LmStudioNeverFails | src/style_transform.py:74-102 | on the LM Studio path the loop never fails; each chunk gives the stripped reply, or the placeholder when the call failed |
| StyleTransform.UnknownModeFailsOnText | src/style_transform.py:66-83 | an unknown mode raises NotImplementedError iff there is at least one chunk, i.e. for every non-empty text; an empty text gives `""` |
| StyleTransform.PlaceholderIsAmbiguous | src/style_transform.py:99-102 | a backend reply equal to the placeholder text gives the same chunk result as a failed call |
| StyleTransform.StyleTransformer.constructor | src/style_transform.py:33-50 | `lang` is lowercased; the context comes from the model name as given, before normalisation; window = 3 × context; overlap = window/5; mode and name are normalised |
| StyleTransform.StyleTransformer.MergeChunks | src/style_transform.py:118-143 | the result is the `' '`-join of the merge rule applied to the stripped sentences of all chunks, in order; Turkish tokenizer iff `lang == "tr"` |
| StyleTransform.StyleTransformer.Transform | src/style_transform.py:66-83 | one backend call per chunk in split order, results merged in that order, first exception propagated; the style defaults to `academic` |
| TextPreprocessing.ValidateLanguage | src/text_preprocessing.py:15-31 | accepted iff the lowercased language is `en`, or `tr` with an LLM; Turkish without an LLM and any other language raise ValueError with the source's messages |
| TextPreprocessing.ValidateLanguageIgnoresCase | src/text_preprocessing.py:16 | validation depends on the language only up to case |
| TextPreprocessing.TextPreprocessor.Create | src/text_preprocessing.py:15-31 | construction succeeds exactly when validation does; the language is lowercased; a LanguageTool is attached iff the language is English; the language defaults to `en` and the LLM to none |
| TextPreprocessing.Outcomes | src/text_preprocessing.py:39-73 | the `corrected_sentences` list of both loops: exactly one entry per sentence, in sentence order |
| TextPreprocessing.OutcomesAt | src/text_preprocessing.py:39-73 | exactly one corrected sentence per input sentence, at the same position |
| TextPreprocessing.SentenceCorrectionEn | src/text_preprocessing.py:40-46 | one English iteration: the sentence is kept, or it was checked without an exception and replaced by LanguageTool's correction |
| TextPreprocessing.CorrectedEn | src/text_preprocessing.py:39-46 | the English `corrected_sentences`: at each position, LanguageTool's correction of that sentence, or the sentence when `check` or `correct` raised (`OutcomesAt`) |
| TextPreprocessing.CheckerFailureKeepsSentence | src/text_preprocessing.py:40-46 | a sentence on which `check` or `correct` raises is kept unchanged |
| TextPreprocessing.ChangedMeansChecked | src/text_preprocessing.py:40-46 | a changed English sentence was checked and corrected without an exception |
| TextPreprocessing.ChangedIndicesSpec | src/text_preprocessing.py:48-70 | the changed indices are strictly increasing and are exactly the positions where original and corrected differ |
| TextPreprocessing.Changes | src/text_preprocessing.py:62-70 | the Turkish correction list: a record `(original, corrected)` appended for each changed sentence, in sentence order |
| TextPreprocessing.ChangesAtChangedIndices | src/text_preprocessing.py:66-70 | the Turkish records are `(original, corrected)` at the changed indices, in sentence order, with no issue count |
| TextPreprocessing.ChangesSnoc | src/text_preprocessing.py:65-70 | one more sentence adds a record iff it changed |
| TextPreprocessing.RecordsEn | src/text_preprocessing.py:48-56 | the English correction list: for each changed sentence, in order, a record with the count from a second `check`, which raises out of the comprehension when it fails |
| TextPreprocessing.RecordsEnSpec | src/text_preprocessing.py:48-56 | the English list succeeds iff the second check succeeds on every changed sentence; it then has the Turkish-style records with counts from that check; otherwise it fails with the error of the first changed sentence whose check failed |
| TextPreprocessing.CorrectTextEn | src/text_preprocessing.py:33-59 | `correct_text` in English: the English sentences, each corrected or kept, joined with one space, with the English correction list, or that list's exception |
| TextPreprocessing.DeterministicCheckerNeverRaises | src/text_preprocessing.py:39-56 | if the checker answers the second call as it answered the first, the English branch never raises |
| TextPreprocessing.OneSentenceCorrectedEn | src/text_preprocessing.py:33-59 | a one-sentence English text that LanguageTool changes gives the corrected sentence and one record carrying the count |
| TextPreprocessing.TrCorrectionPrompt | src/text_preprocessing.py:80-84 | the Turkish correction prompt: the instruction line, the sentence, a newline, then the closing request |
| TextPreprocessing.TrPromptEmbedsSentence | src/text_preprocessing.py:80-84 | the Turkish correction prompt is the instruction, the sentence verbatim, a newline, then the closing request |
| TextPreprocessing.SentenceCorrectionTr | src/text_preprocessing.py:78-87 | one Turkish correction: the LLM's `transform` of the prompt in style `grammar`, stripped, or the exception it raised |
| TextPreprocessing.SentenceOutcomeTr | src/text_preprocessing.py:63-73 | one Turkish iteration: the LLM's correction of the sentence, or the sentence itself when the LLM raised |
| TextPreprocessing.CorrectedTr | src/text_preprocessing.py:62-73 | the Turkish `corrected_sentences`: at each position, that sentence's outcome (`OutcomesAt`) |
| TextPreprocessing.CorrectTextTr | src/text_preprocessing.py:33-76 | `correct_text` in Turkish: the English sentences, each corrected or kept when the LLM raised, joined with one space, with the Turkish correction list |
| TextPreprocessing.LlmFailureKeepsSentence | src/text_preprocessing.py:62-73 | a sentence whose LLM call raised is kept and gets no record |
| TextPreprocessing.LmStudioOutageBecomesCorrection | src/text_preprocessing.py:78-87 | with LM Studio unreachable, the Turkish correction of any sentence is the placeholder, and a sentence other than the placeholder gets a record |
| TextPreprocessing.NoSentencesNoOutput | src/text_preprocessing.py:33-76 | a text with no sentences gives `("", [])` in both languages |
| TextPreprocessing.TextPreprocessor.CorrectText | src/text_preprocessing.py:33-76 | segmentation uses the English tokenizer; the English branch equals `CorrectTextEn` and the Turkish branch equals `CorrectTextTr` |
| TextPreprocessing.TextPreprocessor.CorrectEnglish | src/text_preprocessing.py:38-59 | the English loop corrects each sentence in order, keeping it on an exception, then builds the correction list |
| TextPreprocessing.TextPreprocessor.CorrectTurkish | src/text_preprocessing.py:61-76 | the Turkish loop corrects each sentence in order, keeping it on an exception, and records each sentence that changed |
| TextPreprocessing.TextPreprocessor.CorrectSentenceTr | src/text_preprocessing.py:78-87 | the LLM's `transform` of the prompt in style `grammar`, stripped; an exception propagates |

## Left out

- `requests.post` to LM Studio (src/style_transform.py:97) has no timeout, so a Python call
  can block indefinitely, where a `Backend` always answers. No proved property depends on
  this.
- HTTP to LM Studio, HuggingFace model loading and `generate`, and torch tensors
  (src/style_transform.py:52-56, 85-93, 104-109): network and foreign ML libraries. They are
  the `Backend` parameters. The request payload (temperature, max tokens, URL) is not modelled.
- StyleTransformer.constructor: a failure while loading the HuggingFace model in mode `hf`
  (lines 52-56) is not modelled. The constructor always succeeds.
- The LM Studio reply is modelled as a function of the model name and the prompt. The
  request samples at temperature 0.7 (src/style_transform.py:91), so the server may answer
  two identical requests differently, where the model gives them the same reply.
- NLTK's `sent_tokenize` and `nltk.download`: a foreign library. It is the uninterpreted
  `Tokenizer`.
- LanguageTool's process start-up, the `JAVA_HOME`/`PATH` setup, and `__del__`/`close`
  (src/text_preprocessing.py:9-11, 21-23, 89-94): external process state. The server is
  the `LanguageTool` value handed to `TextPreprocessor.Create`.
- `print` debug and warning output throughout: no effect on results.
- Text.Lower: only ASCII letters are lowercased. Python's full Unicode `lower()` is not
  modelled. The table keys are ASCII, and validation compares against `en`/`tr`.
- ContextBudget.OverlapChars: models `int(window_size * 0.2)` as `window_size / 5`. The
  floating-point product is not modelled. It rounds to the floor of window/5 for every
  window the table can produce.
- Splitter.SplitWithOverlap: requires `0 < window_size` and `overlap_chars < window_size`.
  Python raises on a zero step and returns no chunks for a negative one. The only caller
  passes the constructor's values, which always satisfy both (`BudgetStepPositive`).
- TextPreprocessor.CorrectText: the `None` result for a language other than `en`/`tr` is
  not modelled. The constructor rejects every such language.
- src/pipeline.py, src/readability.py, src/create_diagram.py, app.py and main.py are not
  part of this model: file I/O, float readability scores, plotting and UI.
