/** `TextPreprocessor`: language validation at construction and the per-sentence correction
    loop, with LanguageTool for English and a `StyleTransformer` for Turkish. */
module TextPreprocessing {
  import opened Results
  import opened Text
  import opened Splitter
  import opened Merger
  import opened StyleTransform

  /** The LanguageTool server as seen by `correct_text`: `check` gives the number of matches
      for a sentence, `correct` the corrected sentence; either may raise. `recheck` is what
      the second, unguarded `check` of the same sentence returns when the records are built;
      a deterministic server has `recheck == check`. */
  datatype LanguageTool = LanguageTool(
    check: string -> Result<nat>,
    correct: string -> Result<string>,
    recheck: string -> Result<nat>)

  /** One entry of the correction list; `numIssues` is present for English only. */
  datatype CorrectionRecord = CorrectionRecord(original: string, corrected: string, numIssues: Option<nat>)

  /** What `correct_text` returns: the corrected text and the correction list. */
  type Outcome = (string, seq<CorrectionRecord>)

  /** The language check of `__init__`, on the lowercased language: English is accepted,
      Turkish only with an LLM; the error message for an unsupported language quotes the
      language as given. */
  function ValidateLanguage(lang: string, hasLlm: bool): (r: Result<string>)
    ensures r.Ok? <==> Lower(lang) == "en" || (Lower(lang) == "tr" && hasLlm)
    ensures r.Ok? ==> r.value == Lower(lang)
    ensures Lower(lang) == "tr" && !hasLlm ==> r == Err(ValueError("LLM must be provided for Turkish."))
    ensures Lower(lang) != "en" && Lower(lang) != "tr" ==> r == Err(ValueError("Unsupported language: " + lang))
  {
    var low := Lower(lang);
    if low == "en" then Ok(low)
    else if low == "tr" then
      if hasLlm then Ok(low) else Err(ValueError("LLM must be provided for Turkish."))
    else Err(ValueError("Unsupported language: " + lang))
  }

  /** Validation depends on the language only up to case. */
  lemma ValidateLanguageIgnoresCase(lang: string, hasLlm: bool)
    ensures ValidateLanguage(Lower(lang), hasLlm).Ok? == ValidateLanguage(lang, hasLlm).Ok?
  {
    LowerIdempotent(lang);
  }

  /** A per-sentence step applied to each sentence in order, as the correction loops do. */
  function Outcomes(step: string -> string, sentences: seq<string>): (corrected: seq<string>)
    ensures |corrected| == |sentences|
  {
    if sentences == [] then []
    else
      var n := |sentences| - 1;
      Outcomes(step, sentences[..n]) + [step(sentences[n])]
  }

  /** Each corrected sentence is the step's outcome for the sentence at the same position. */
  lemma {:induction false} OutcomesAt(step: string -> string, sentences: seq<string>, k: nat)
    requires k < |sentences|
    ensures Outcomes(step, sentences)[k] == step(sentences[k])
  {
    var n := |sentences| - 1;
    if k < n {
      OutcomesAt(step, sentences[..n], k);
    }
  }

  // ---- English ----

  /** One iteration of the English loop: the corrected sentence, or the sentence itself when
      `check` or `correct` raised. */
  function SentenceCorrectionEn(tool: LanguageTool, s: string): (r: string)
    ensures r == s || (tool.check(s).Ok? && tool.correct(s) == Ok(r))
  {
    match tool.check(s)
    case Err(_) => s
    case Ok(_) =>
      match tool.correct(s)
      case Err(_) => s
      case Ok(c) => c
  }

  /** A sentence the checker fails on is passed through unchanged. */
  lemma CheckerFailureKeepsSentence(tool: LanguageTool, s: string)
    requires tool.check(s).Err? || (tool.check(s).Ok? && tool.correct(s).Err?)
    ensures SentenceCorrectionEn(tool, s) == s
  {
  }

  /** A changed sentence was both checked and corrected without an exception. */
  lemma ChangedMeansChecked(tool: LanguageTool, s: string)
    requires SentenceCorrectionEn(tool, s) != s
    ensures tool.check(s).Ok? && tool.correct(s) == Ok(SentenceCorrectionEn(tool, s))
  {
  }

  // ---- Correction records ----

  /** The indices where the corrected sentence differs from the original, in order. */
  function ChangedIndices(originals: seq<string>, corrected: seq<string>): seq<nat>
    requires |originals| == |corrected|
  {
    if originals == [] then []
    else
      var n := |originals| - 1;
      var prev := ChangedIndices(originals[..n], corrected[..n]);
      if originals[n] != corrected[n] then prev + [n] else prev
  }

  /** `ChangedIndices` is strictly increasing and holds exactly the indices of changed sentences. */
  lemma {:induction false} ChangedIndicesSpec(originals: seq<string>, corrected: seq<string>)
    requires |originals| == |corrected|
    ensures var idx := ChangedIndices(originals, corrected);
            && (forall m | 0 <= m < |idx| :: idx[m] < |originals|)
            && (forall m, m' | 0 <= m < m' < |idx| :: idx[m] < idx[m'])
            && (forall k | 0 <= k < |originals| :: k in idx <==> originals[k] != corrected[k])
  {
    if originals != [] {
      var n := |originals| - 1;
      ChangedIndicesSpec(originals[..n], corrected[..n]);
    }
  }

  /** The Turkish correction list: a record for each changed sentence, in sentence order. */
  function Changes(originals: seq<string>, corrected: seq<string>): seq<CorrectionRecord>
    requires |originals| == |corrected|
  {
    if originals == [] then []
    else
      var n := |originals| - 1;
      var prev := Changes(originals[..n], corrected[..n]);
      if originals[n] != corrected[n] then prev + [CorrectionRecord(originals[n], corrected[n], None)] else prev
  }

  /** The records are exactly (original, corrected) at the changed indices, in order. */
  lemma {:induction false} ChangesAtChangedIndices(originals: seq<string>, corrected: seq<string>)
    requires |originals| == |corrected|
    ensures var idx := ChangedIndices(originals, corrected);
            var recs := Changes(originals, corrected);
            && |recs| == |idx|
            && forall m | 0 <= m < |idx| ::
                 idx[m] < |originals| && recs[m] == CorrectionRecord(originals[idx[m]], corrected[idx[m]], None)
  {
    ChangedIndicesSpec(originals, corrected);
    if originals != [] {
      var n := |originals| - 1;
      ChangesAtChangedIndices(originals[..n], corrected[..n]);
    }
  }

  lemma ChangesSnoc(originals: seq<string>, corrected: seq<string>, s: string, c: string)
    requires |originals| == |corrected|
    ensures Changes(originals + [s], corrected + [c])
            == Changes(originals, corrected) + (if s != c then [CorrectionRecord(s, c, None)] else [])
  {
    assert (originals + [s])[..|originals|] == originals;
    assert (corrected + [c])[..|corrected|] == corrected;
  }

  /** The English correction list: the comprehension over changed sentences, each record
      carrying the match count of a second `check`. That call is not guarded, so the first
      failure among the changed sentences, in order, is raised out of `correct_text`. */
  function RecordsEn(tool: LanguageTool, originals: seq<string>, corrected: seq<string>): Result<seq<CorrectionRecord>>
    requires |originals| == |corrected|
  {
    if originals == [] then Ok([])
    else
      var n := |originals| - 1;
      match RecordsEn(tool, originals[..n], corrected[..n])
      case Err(e) => Err(e)
      case Ok(prev) =>
        if originals[n] == corrected[n] then Ok(prev)
        else
          match tool.recheck(originals[n])
          case Err(e) => Err(e)
          case Ok(count) => Ok(prev + [CorrectionRecord(originals[n], corrected[n], Some(count))])
  }

  /** The English list succeeds exactly when the second check succeeds on every changed
      sentence; it then holds the Turkish-style records with the counts filled in, and
      otherwise fails with the error of the first changed sentence whose check failed. */
  lemma {:induction false} RecordsEnSpec(tool: LanguageTool, originals: seq<string>, corrected: seq<string>)
    requires |originals| == |corrected|
    ensures var r := RecordsEn(tool, originals, corrected);
            var plain := Changes(originals, corrected);
            && (r.Ok? <==> forall k | 0 <= k < |originals| :: originals[k] != corrected[k] ==> tool.recheck(originals[k]).Ok?)
            && (r.Ok? ==> |r.value| == |plain|
                          && forall m | 0 <= m < |plain| ::
                               && r.value[m].original == plain[m].original
                               && r.value[m].corrected == plain[m].corrected
                               && r.value[m].numIssues.Some?
                               && tool.recheck(plain[m].original) == Ok(r.value[m].numIssues.value))
            && (r.Err? ==> exists k | 0 <= k < |originals| ::
                             && originals[k] != corrected[k]
                             && tool.recheck(originals[k]) == Err(r.error)
                             && forall j | 0 <= j < k :: originals[j] != corrected[j] ==> tool.recheck(originals[j]).Ok?)
  {
    if originals != [] {
      var n := |originals| - 1;
      var os, cs := originals[..n], corrected[..n];
      RecordsEnSpec(tool, os, cs);
      assert forall k | 0 <= k < n :: originals[k] == os[k] && corrected[k] == cs[k];
    }
  }

  /** With a checker that answers the second call as it answered the first, the English
      branch never raises: every changed sentence passed `check` once already. */
  lemma DeterministicCheckerNeverRaises(tool: LanguageTool, sentences: seq<string>)
    requires tool.recheck == tool.check
    ensures RecordsEn(tool, sentences, CorrectedEn(tool, sentences)).Ok?
  {
    var corrected := CorrectedEn(tool, sentences);
    RecordsEnSpec(tool, sentences, corrected);
    forall k | 0 <= k < |sentences| && sentences[k] != corrected[k]
      ensures tool.recheck(sentences[k]).Ok?
    {
      OutcomesAt(OutcomeStepEn(tool), sentences, k);
      ChangedMeansChecked(tool, sentences[k]);
    }
  }

  /** `correct_text` in English: the sentences of the text (English tokenizer), each corrected,
      joined with one space, with the correction list. */
  function CorrectTextEn(tool: LanguageTool, text: string, tokenize: Tokenizer): Result<Outcome> {
    var sentences := tokenize("english", text);
    var corrected := CorrectedEn(tool, sentences);
    match RecordsEn(tool, sentences, corrected)
    case Err(e) => Err(e)
    case Ok(records) => Ok((Join(corrected, " "), records))
  }

  /** A one-sentence English text that LanguageTool corrects becomes the corrected sentence,
      with one record carrying the second check's count. */
  lemma OneSentenceCorrectedEn(tool: LanguageTool, text: string, tokenize: Tokenizer, c: string, n: nat)
    requires tokenize("english", text) == [text]
    requires tool.check(text).Ok? && tool.correct(text) == Ok(c) && c != text && tool.recheck(text) == Ok(n)
    ensures CorrectTextEn(tool, text, tokenize) == Ok((c, [CorrectionRecord(text, c, Some(n))]))
  {
    var rec := CorrectionRecord(text, c, Some(n));
    var none: seq<string> := [];
    assert [text][..0] == none && [c][..0] == none;
    assert CorrectedEn(tool, [text]) == [c] by {
      assert Outcomes(OutcomeStepEn(tool), none) == [];
    }
    assert RecordsEn(tool, [text], [c]) == Ok([rec]) by {
      assert RecordsEn(tool, none, none) == Ok([]);
      assert [] + [rec] == [rec];
    }
    assert Join([c], " ") == c;
  }

  // ---- Turkish ----

  const TrCorrectionHead := "Aşağıdaki cümlede yazım veya dil bilgisi hatası varsa düzelt:\n"
  const TrCorrectionTail := "Sadece düzeltilmiş cümleyi döndür. Eğer hata yoksa cümleyi aynen döndür."

  /** `correct_sentence_tr_with_llm`'s prompt: the instruction, the sentence on a line of its
      own, and the request to return only the corrected sentence. */
  function TrCorrectionPrompt(sentence: string): string {
    TrCorrectionHead + sentence + "\n" + TrCorrectionTail
  }

  /** The prompt holds the sentence verbatim, on its own line after the instruction, and is
      never empty. */
  lemma TrPromptEmbedsSentence(sentence: string)
    ensures var prompt := TrCorrectionPrompt(sentence);
            var h := |TrCorrectionHead|;
            && |prompt| == h + |sentence| + 1 + |TrCorrectionTail|
            && prompt[..h] == TrCorrectionHead
            && prompt[h..h + |sentence|] == sentence
            && prompt[h + |sentence|] == '\n'
            && prompt[h + |sentence| + 1..] == TrCorrectionTail
  {
    var prompt := TrCorrectionPrompt(sentence);
    var h := |TrCorrectionHead|;
    assert prompt == ((TrCorrectionHead + sentence) + "\n") + TrCorrectionTail;
    assert (TrCorrectionHead + sentence)[h..] == sentence;
  }

  /** `correct_sentence_tr_with_llm`: the LLM's transform of the prompt in style "grammar",
      stripped; an exception from the transform propagates. */
  function SentenceCorrectionTr(llm: Settings, s: string, backends: Backends, tokenize: Tokenizer): Result<string>
    requires llm.Budgeted()
  {
    match TransformOf(llm, TrCorrectionPrompt(s), "grammar", backends, tokenize)
    case Err(e) => Err(e)
    case Ok(t) => Ok(Strip(t))
  }

  /** One iteration of the Turkish loop: the corrected sentence, or the sentence itself when
      the LLM raised. */
  function SentenceOutcomeTr(llm: Settings, s: string, backends: Backends, tokenize: Tokenizer): string
    requires llm.Budgeted()
  {
    match SentenceCorrectionTr(llm, s, backends, tokenize)
    case Err(_) => s
    case Ok(c) => c
  }

  lemma OutcomeOfAttempt(llm: Settings, s: string, attempt: Result<string>, backends: Backends, tokenize: Tokenizer)
    requires llm.Budgeted() && attempt == SentenceCorrectionTr(llm, s, backends, tokenize)
    ensures SentenceOutcomeTr(llm, s, backends, tokenize) == if attempt.Ok? then attempt.value else s
  {
  }

  function OutcomeStepEn(tool: LanguageTool): string -> string {
    s => SentenceCorrectionEn(tool, s)
  }

  /** The English loop's corrected sentences, one per sentence, in order. */
  function CorrectedEn(tool: LanguageTool, sentences: seq<string>): seq<string> {
    Outcomes(OutcomeStepEn(tool), sentences)
  }

  function OutcomeStepTr(llm: Settings, backends: Backends, tokenize: Tokenizer): string -> string
    requires llm.Budgeted()
  {
    s => SentenceOutcomeTr(llm, s, backends, tokenize)
  }

  /** The Turkish loop's corrected sentences, one per sentence, in order. */
  function CorrectedTr(llm: Settings, sentences: seq<string>, backends: Backends, tokenize: Tokenizer): seq<string>
    requires llm.Budgeted()
  {
    Outcomes(OutcomeStepTr(llm, backends, tokenize), sentences)
  }

  /** `correct_text` in Turkish: segmentation still uses the English tokenizer; it never
      raises. */
  function CorrectTextTr(llm: Settings, text: string, backends: Backends, tokenize: Tokenizer): Outcome
    requires llm.Budgeted()
  {
    var sentences := tokenize("english", text);
    var corrected := CorrectedTr(llm, sentences, backends, tokenize);
    (Join(corrected, " "), Changes(sentences, corrected))
  }

  /** A sentence whose LLM call raised is kept and gets no record. */
  lemma LlmFailureKeepsSentence(llm: Settings, s: string, backends: Backends, tokenize: Tokenizer)
    requires llm.Budgeted() && SentenceCorrectionTr(llm, s, backends, tokenize).Err?
    ensures SentenceOutcomeTr(llm, s, backends, tokenize) == s
    ensures Changes([s], [SentenceOutcomeTr(llm, s, backends, tokenize)]) == []
  {
    assert [s][..0] == [];
  }

  /** With LM Studio unreachable, the Turkish correction does not raise: the transform
      returns the placeholder, which is then what the sentence is "corrected" to, and a
      record is made for every sentence that differs from the placeholder. This needs the
      tokenizer to keep the placeholder as one sentence. */
  lemma LmStudioOutageBecomesCorrection(llm: Settings, s: string, backends: Backends, tokenize: Tokenizer)
    requires llm.Budgeted() && llm.mode == LmStudioMode
    requires forall prompt :: backends.lmStudio(llm.modelName, prompt).Err?
    requires tokenize(TokenizerLanguage(llm.lang), ErrorPlaceholder) == [ErrorPlaceholder]
    ensures SentenceCorrectionTr(llm, s, backends, tokenize) == Ok(ErrorPlaceholder)
    ensures s != ErrorPlaceholder ==>
              Changes([s], [SentenceOutcomeTr(llm, s, backends, tokenize)])
              == [CorrectionRecord(s, ErrorPlaceholder, None)]
  {
    var prompt := TrCorrectionPrompt(s);
    var chunks := SplitWithOverlap(prompt, llm.windowSize, llm.overlapChars);
    SplitSingle(prompt, llm.windowSize, llm.overlapChars);
    SplitCount(prompt, llm.windowSize, llm.overlapChars);
    LmStudioNeverFails(llm, chunks, "grammar", backends);
    var results := Collect(ChunkStep(llm, "grammar", backends), chunks).value;
    StripOfStripped(ErrorPlaceholder);
    MergeOfRepeated(llm.lang, results, tokenize, ErrorPlaceholder);
    assert [s][..0] == [];
  }

  /** No sentences, no output: an input the tokenizer finds no sentence in gives ("", []). */
  lemma NoSentencesNoOutput(tool: LanguageTool, llm: Settings, text: string, backends: Backends, tokenize: Tokenizer)
    requires llm.Budgeted() && tokenize("english", text) == []
    ensures CorrectTextEn(tool, text, tokenize) == Ok(("", []))
    ensures CorrectTextTr(llm, text, backends, tokenize) == ("", [])
  {
  }

  class TextPreprocessor {
    const lang: string
    const tool: Option<LanguageTool>
    const llm: Option<StyleTransformer>

    /** What construction guarantees: English with a LanguageTool, or Turkish with an LLM. */
    ghost predicate Valid() {
      || (lang == "en" && tool.Some?)
      || (lang == "tr" && llm.Some? && llm.value.Valid())
    }

    constructor (lang: string, tool: Option<LanguageTool>, llm: Option<StyleTransformer>)
      requires lang == "en" ==> tool.Some?
      requires lang == "tr" ==> llm.Some? && llm.value.Valid()
      requires lang == "en" || lang == "tr"
      ensures Valid() && this.lang == lang && this.tool == tool && this.llm == llm
    {
      this.lang := lang;
      this.tool := tool;
      this.llm := llm;
    }

    /** `__init__`: the language is lowercased and checked; English starts a LanguageTool
        (given here as `languageTool`), Turkish needs an LLM. As in the source, the language
        defaults to English and the LLM to none. */
    static method Create(languageTool: LanguageTool, lang: string := "en", llm: Option<StyleTransformer> := None)
      returns (r: Result<TextPreprocessor>)
      requires llm.Some? ==> llm.value.Valid()
      ensures r.Ok? <==> ValidateLanguage(lang, llm.Some?).Ok?
      ensures r.Err? ==> r.error == ValidateLanguage(lang, llm.Some?).error
      ensures r.Ok? ==> && r.value.Valid()
                        && r.value.lang == Lower(lang)
                        && r.value.llm == llm
                        && r.value.tool == (if r.value.lang == "en" then Some(languageTool) else None)
    {
      var checked := ValidateLanguage(lang, llm.Some?);
      if checked.Err? {
        return Err(checked.error);
      }
      var low := checked.value;
      var tool: Option<LanguageTool> := if low == "en" then Some(languageTool) else None;
      var p := new TextPreprocessor(low, tool, llm);
      return Ok(p);
    }

    /** `correct_text(text)`: the text is split into sentences with the English tokenizer
        whatever the language; then each sentence is corrected in order, and the sentences
        that changed are recorded. */
    method CorrectText(text: string, backends: Backends, tokenize: Tokenizer) returns (r: Result<Outcome>)
      requires Valid()
      ensures lang == "en" ==> r == CorrectTextEn(tool.value, text, tokenize)
      ensures lang == "tr" ==> r == Ok(CorrectTextTr(llm.value.AsSettings(), text, backends, tokenize))
    {
      var sentences := tokenize("english", text);
      if lang == "en" {
        r := CorrectEnglish(tool.value, sentences);
      } else {
        var outcome := CorrectTurkish(llm.value, sentences, backends, tokenize);
        r := Ok(outcome);
      }
    }

    /** The English branch: LanguageTool's check and correction per sentence, the sentence
        kept when either raises; then the correction list. */
    static method CorrectEnglish(tool: LanguageTool, sentences: seq<string>) returns (r: Result<Outcome>)
      ensures r == match RecordsEn(tool, sentences, CorrectedEn(tool, sentences))
                   case Err(e) => Err(e)
                   case Ok(records) => Ok((Join(CorrectedEn(tool, sentences), " "), records))
    {
      ghost var step := OutcomeStepEn(tool);
      var corrected: seq<string> := [];
      for i := 0 to |sentences|
        invariant corrected == Outcomes(step, sentences[..i])
      {
        var sentence := sentences[i];
        var matches := tool.check(sentence);
        if matches.Err? {
          corrected := corrected + [sentence];
        } else {
          var c := tool.correct(sentence);
          if c.Err? {
            corrected := corrected + [sentence];
          } else {
            corrected := corrected + [c.value];
          }
        }
        assert sentences[..i + 1][..i] == sentences[..i];
      }
      assert sentences[..|sentences|] == sentences;
      var records := RecordsEn(tool, sentences, corrected);
      if records.Err? {
        return Err(records.error);
      }
      return Ok((Join(corrected, " "), records.value));
    }

    /** The Turkish branch: the LLM's correction per sentence, the sentence kept when the LLM
        raises; a record for every sentence the LLM changed. */
    static method CorrectTurkish(llm: StyleTransformer, sentences: seq<string>, backends: Backends, tokenize: Tokenizer)
      returns (outcome: Outcome)
      requires llm.Valid()
      ensures var corrected := CorrectedTr(llm.AsSettings(), sentences, backends, tokenize);
              outcome == (Join(corrected, " "), Changes(sentences, corrected))
    {
      ghost var settings := llm.AsSettings();
      ghost var step := OutcomeStepTr(settings, backends, tokenize);
      var corrected: seq<string> := [];
      var corrections: seq<CorrectionRecord> := [];
      for i := 0 to |sentences|
        invariant corrected == Outcomes(step, sentences[..i])
        invariant corrections == Changes(sentences[..i], corrected)
      {
        var sentence := sentences[i];
        var attempt := CorrectSentenceTr(llm, sentence, backends, tokenize);
        var c := if attempt.Ok? then attempt.value else sentence;
        ChangesSnoc(sentences[..i], corrected, sentence, c);
        TakeSnoc(sentences, i);
        OutcomeOfAttempt(settings, sentence, attempt, backends, tokenize);
        assert step(sentence) == c;
        assert sentences[..i + 1][..i] == sentences[..i];
        if attempt.Ok? && sentence != c {
          corrections := corrections + [CorrectionRecord(sentence, c, None)];
        }
        corrected := corrected + [c];
      }
      assert sentences[..|sentences|] == sentences;
      return (Join(corrected, " "), corrections);
    }
  
    /** `correct_sentence_tr_with_llm`: the LLM's transform of the correction prompt in style
        "grammar", stripped; an exception from the transform propagates. */
    static method CorrectSentenceTr(llm: StyleTransformer, sentence: string, backends: Backends, tokenize: Tokenizer)
      returns (r: Result<string>)
      requires llm.Valid()
      ensures r == SentenceCorrectionTr(llm.AsSettings(), sentence, backends, tokenize)
    {
      var prompt := TrCorrectionPrompt(sentence);
      var corrected := llm.Transform(prompt, backends, tokenize, style := "grammar");
      if corrected.Err? {
        return Err(corrected.error);
      }
      return Ok(Strip(corrected.value));
    }
  }
}
