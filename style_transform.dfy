/** `StyleTransformer`: budget fields set at construction, the per-chunk transform loop with
    its failure policy, and the sentence-level merge loop. */
module StyleTransform {
  import opened Results
  import opened Text
  import opened ContextBudget
  import opened Splitter
  import opened Merger

  /** A generative backend: (model name, prompt) -> generated text, or the exception it
      raised. The HTTP request to LM Studio and the HuggingFace `generate` call are such
      functions. */
  type Backend = (string, string) -> Result<string>

  datatype Backends = Backends(lmStudio: Backend, hf: Backend)

  const LmStudioMode := "lm_studio"
  const LmStudioPrefix := "LM Studio:"

  /** What a failed LM Studio call contributes in place of a chunk. */
  const ErrorPlaceholder := "Error during transformation."

  /** The settings the transform reads from a `StyleTransformer`. */
  datatype Settings = Settings(mode: string, modelName: string, lang: string, windowSize: nat, overlapChars: nat)
  {
    ghost predicate Budgeted() {
      0 < windowSize && overlapChars < windowSize
    }
  }

  /** The mode and model name after the constructor's normalisation: an "LM Studio:" prefix
      selects LM Studio and is removed (with every other occurrence) from the name, which is
      then stripped; a "/" in the name selects LM Studio unless "hf" was asked for. */
  function NormalizeMode(mode: string, modelName: string): (r: (string, string))
    ensures r.0 == mode || r.0 == LmStudioMode
    ensures LmStudioPrefix <= modelName ==>
              && r.0 == LmStudioMode
              && r.1 == Strip(RemoveAll(modelName[|LmStudioPrefix|..], LmStudioPrefix))
              && |r.1| <= |modelName| - |LmStudioPrefix|
    ensures !(LmStudioPrefix <= modelName) ==> r.1 == modelName
    ensures !(LmStudioPrefix <= modelName) && !IsSubstring("/", modelName) ==> r.0 == mode
    ensures !(LmStudioPrefix <= modelName) && IsSubstring("/", modelName) ==>
              r.0 == (if mode == "hf" then "hf" else LmStudioMode)
    ensures r.0 == "hf" <==> mode == "hf" && !(LmStudioPrefix <= modelName)
  {
    if LmStudioPrefix <= modelName then
      (LmStudioMode, Strip(RemoveAll(modelName, LmStudioPrefix)))
    else if IsSubstring("/", modelName) && mode != "hf" then
      (LmStudioMode, modelName)
    else
      (mode, modelName)
  }

  /** The two instructions of `build_prompt`, each written once: a head that names the
      style, then the text, then a tail. */
  function EnglishHead(style: string): string {
    "Rewrite the following text in " + style + " style:\n"
  }

  const EnglishTail := "\nReturn only the edited version."

  function TurkishHead(style: string): string {
    "Aşağıdaki metni " + style + " tarzında yeniden yaz:\n"
  }

  const TurkishTail := "\nSadece düzenlenmiş metni döndür."

  function PromptHead(lang: string, style: string): string {
    if lang == "tr" then TurkishHead(style) else EnglishHead(style)
  }

  function PromptTail(lang: string): string {
    if lang == "tr" then TurkishTail else EnglishTail
  }

  /** `build_prompt`: the instruction for the language, with the text embedded verbatim
      between the instruction's head and tail; every language but Turkish gets English. */
  function BuildPrompt(lang: string, text: string, style: string): (prompt: string)
    ensures var h := |PromptHead(lang, style)|;
            && |prompt| == h + |text| + |PromptTail(lang)|
            && prompt[..h] == PromptHead(lang, style)
            && prompt[h..h + |text|] == text
            && prompt[h + |text|..] == PromptTail(lang)
  {
    if lang == "en" then EnglishHead(style) + text + EnglishTail
    else if lang == "tr" then TurkishHead(style) + text + TurkishTail
    else EnglishHead(style) + text + EnglishTail
  }

  /** `_lm_studio_transform`: the reply stripped, or the placeholder when the call failed. */
  function LmStudioTransform(lmStudio: Backend, modelName: string, prompt: string): (r: string)
    ensures lmStudio(modelName, prompt).Err? ==> r == ErrorPlaceholder
    ensures lmStudio(modelName, prompt).Ok? ==> r == Strip(lmStudio(modelName, prompt).value) && IsStripped(r)
  {
    match lmStudio(modelName, prompt)
    case Ok(content) => StripSpec(content); Strip(content)
    case Err(_) => ErrorPlaceholder
  }

  /** One iteration of the transform loop: the chunk's prompt sent to the backend the mode
      selects. An unknown mode raises NotImplementedError. The HF branch is also taken for a
      mode that merely contains "hf", but the HF model and tokenizer exist only when the mode
      is exactly "hf"; otherwise the branch raises AttributeError. HF failures propagate. */
  function ChunkResult(s: Settings, chunk: string, style: string, backends: Backends): (r: Result<string>)
    ensures s.mode == LmStudioMode ==> r.Ok?
    ensures s.mode == "hf" ==> r == backends.hf(s.modelName, BuildPrompt(s.lang, chunk, style))
    ensures s.mode != LmStudioMode && s.mode != "hf" ==>
              r == Err(if IsSubstring("hf", s.mode) || IsSubstring("/", s.modelName) then ModelNotLoaded else NotImplemented)
  {
    var prompt := BuildPrompt(s.lang, chunk, style);
    if s.mode == LmStudioMode then Ok(LmStudioTransform(backends.lmStudio, s.modelName, prompt))
    else if IsSubstring("hf", s.mode) || IsSubstring("/", s.modelName) then
      if s.mode == "hf" then backends.hf(s.modelName, prompt) else Err(ModelNotLoaded)
    else Err(NotImplemented)
  }

  function ChunkStep(s: Settings, style: string, backends: Backends): string -> Result<string> {
    chunk => ChunkResult(s, chunk, style, backends)
  }

  /** A loop that applies a step to each chunk in order, collecting the results and stopping
      at the first exception. */
  function Collect(step: string -> Result<string>, chunks: seq<string>): Result<seq<string>> {
    if chunks == [] then Ok([])
    else
      match Collect(step, chunks[..|chunks| - 1])
      case Err(e) => Err(e)
      case Ok(results) =>
        match step(chunks[|chunks| - 1])
        case Err(e) => Err(e)
        case Ok(result) => Ok(results + [result])
  }

  /** On success there is one result per chunk, each that chunk's own result; on failure the
      error is that of the first chunk that failed, every chunk before it having succeeded. */
  lemma {:induction false} CollectSpec(step: string -> Result<string>, chunks: seq<string>)
    ensures var r := Collect(step, chunks);
            && (r.Ok? ==> |r.value| == |chunks|
                          && forall k | 0 <= k < |chunks| :: step(chunks[k]) == Ok(r.value[k]))
            && (r.Err? ==> exists k | 0 <= k < |chunks| ::
                             && step(chunks[k]) == Err(r.error)
                             && forall j | 0 <= j < k :: step(chunks[j]).Ok?)
  {
    if chunks != [] {
      var init := chunks[..|chunks| - 1];
      CollectSpec(step, init);
      assert forall k | 0 <= k < |init| :: chunks[k] == init[k];
    }
  }

  /** A failure met part way makes the whole loop fail with it. */
  lemma {:induction false} CollectStop(step: string -> Result<string>, chunks: seq<string>, i: nat, e: Error)
    requires i <= |chunks| && Collect(step, chunks[..i]) == Err(e)
    ensures Collect(step, chunks) == Err(e)
    decreases |chunks| - i
  {
    if i < |chunks| {
      assert chunks[..i + 1][..i] == chunks[..i];
      CollectStop(step, chunks, i + 1, e);
    } else {
      assert chunks[..i] == chunks;
    }
  }

  /** One more successful chunk extends the results by its own result. */
  lemma CollectExtend(step: string -> Result<string>, chunks: seq<string>, i: nat, results: seq<string>, result: string)
    requires i < |chunks| && Collect(step, chunks[..i]) == Ok(results) && step(chunks[i]) == Ok(result)
    ensures Collect(step, chunks[..i + 1]) == Ok(results + [result])
  {
    assert chunks[..i + 1][..i] == chunks[..i];
  }

  /** A failing chunk after successful ones makes the whole loop fail with its error. */
  lemma CollectFail(step: string -> Result<string>, chunks: seq<string>, i: nat, results: seq<string>, e: Error)
    requires i < |chunks| && Collect(step, chunks[..i]) == Ok(results) && step(chunks[i]) == Err(e)
    ensures Collect(step, chunks) == Err(e)
  {
    assert chunks[..i + 1][..i] == chunks[..i];
    CollectStop(step, chunks, i + 1, e);
  }

  /** A step that never fails makes the loop succeed with exactly the step's results. */
  lemma CollectTotal(step: string -> Result<string>, chunks: seq<string>)
    requires forall c :: step(c).Ok?
    ensures var r := Collect(step, chunks);
            r.Ok? && |r.value| == |chunks| && forall k | 0 <= k < |chunks| :: r.value[k] == step(chunks[k]).value
  {
    CollectSpec(step, chunks);
  }

  /** `transform(text, style)`: split, one backend call per chunk in split order, merge of the
      results in that order. */
  function TransformOf(s: Settings, text: string, style: string, backends: Backends, tokenize: Tokenizer): Result<string>
    requires s.Budgeted()
  {
    match Collect(ChunkStep(s, style, backends), SplitWithOverlap(text, s.windowSize, s.overlapChars))
    case Ok(results) => Ok(MergeOf(s.lang, results, tokenize))
    case Err(e) => Err(e)
  }

  /** On the LM Studio path no chunk can make the transform fail: each chunk contributes the
      placeholder when its call failed and the stripped reply otherwise. */
  lemma LmStudioNeverFails(s: Settings, chunks: seq<string>, style: string, backends: Backends)
    requires s.mode == LmStudioMode
    ensures var r := Collect(ChunkStep(s, style, backends), chunks);
            && r.Ok? && |r.value| == |chunks|
            && forall k | 0 <= k < |chunks| ::
                 var reply := backends.lmStudio(s.modelName, BuildPrompt(s.lang, chunks[k], style));
                 r.value[k] == if reply.Err? then ErrorPlaceholder else Strip(reply.value)
  {
    CollectTotal(ChunkStep(s, style, backends), chunks);
  }

  /** With a mode that is neither LM Studio nor HF, the transform raises NotImplementedError
      exactly when there is at least one chunk, i.e. for every non-empty text; an empty text
      gives "". */
  lemma UnknownModeFailsOnText(s: Settings, text: string, style: string, backends: Backends, tokenize: Tokenizer)
    requires s.Budgeted()
    requires s.mode != LmStudioMode && !IsSubstring("hf", s.mode) && !IsSubstring("/", s.modelName)
    ensures text != [] ==> TransformOf(s, text, style, backends, tokenize) == Err(NotImplemented)
    ensures text == [] ==> TransformOf(s, text, style, backends, tokenize) == Ok("")
  {
    var chunks := SplitWithOverlap(text, s.windowSize, s.overlapChars);
    SplitSingle(text, s.windowSize, s.overlapChars);
    if text != [] {
      CollectFail(ChunkStep(s, style, backends), chunks, 0, [], NotImplemented);
    }
  }

  /** A name made of the "LM Studio:" prefix and a remainder that does not repeat it selects
      LM Studio with the stripped remainder as the model name, whatever mode was asked for. */
  lemma NormalizePrefixed(mode: string, rest: string)
    requires !IsSubstring(LmStudioPrefix, rest)
    ensures NormalizeMode(mode, LmStudioPrefix + rest) == (LmStudioMode, Strip(rest))
  {
    assert LmStudioPrefix <= LmStudioPrefix + rest;
    assert (LmStudioPrefix + rest)[|LmStudioPrefix|..] == rest;
  }

  /** After the constructor's normalisation a "/" in the model name reaches the HF branch only
      in mode "hf": every other mode was switched to LM Studio. */
  lemma SlashNameMeansHfOrLmStudio(mode: string, modelName: string)
    ensures var r := NormalizeMode(mode, modelName);
            IsSubstring("/", r.1) ==> r.0 == LmStudioMode || r.0 == "hf"
  {
  }

  /** The placeholder is not marked as such: a backend that answers with the placeholder's
      text gives the same chunk result as a failed call. */
  lemma PlaceholderIsAmbiguous(lmStudio: Backend, modelName: string, prompt: string)
    requires lmStudio(modelName, prompt) == Ok(ErrorPlaceholder)
    ensures LmStudioTransform(lmStudio, modelName, prompt) == ErrorPlaceholder
  {
    StripOfStripped(ErrorPlaceholder);
  }

  class StyleTransformer {
    const mode: string
    const modelName: string
    const lang: string
    const contextTokens: nat
    const windowSize: nat
    const overlapChars: nat

    /** The budget fields are derived from the context length as the constructor derives them. */
    ghost predicate Valid() {
      && contextTokens >= 1
      && windowSize == WindowSize(contextTokens)
      && overlapChars == OverlapChars(windowSize)
    }

    function AsSettings(): Settings {
      Settings(mode, modelName, lang, windowSize, overlapChars)
    }

    /** `__init__`: the budget comes from the model name as given, before the "LM Studio:"
        prefix is removed; then mode and name are normalised. Loading the HuggingFace model is
        not part of this model. */
    constructor (mode: string := "lm_studio", modelName: string := "local-model", lang: string := "en")
      ensures Valid()
      ensures this.lang == Lower(lang)
      ensures contextTokens == ContextLength(modelName)
      ensures (this.mode, this.modelName) == NormalizeMode(mode, modelName)
    {
      var tokens := ContextLength(modelName);
      var window := tokens * CharsPerToken;
      var normalized := NormalizeMode(mode, modelName);
      this.lang := Lower(lang);
      this.contextTokens := tokens;
      this.windowSize := window;
      this.overlapChars := OverlapChars(window);
      this.mode := normalized.0;
      this.modelName := normalized.1;
    }

    /** `merge_chunks`: the sentences of each chunk, stripped, kept when non-empty and not yet
        seen, joined with one space. */
    method MergeChunks(chunks: seq<string>, tokenize: Tokenizer) returns (finalText: string)
      ensures finalText == MergeOf(lang, chunks, tokenize)
    {
      var merged: seq<string> := [];
      var seen: set<string> := {};
      var language := TokenizerLanguage(lang);
      for idx := 0 to |chunks|
        invariant merged == Dedup(StrippedAll(SentencesOf(tokenize, language, chunks[..idx])))
        invariant seen == Elems(merged)
      {
        var sentences := tokenize(language, chunks[idx]);
        ghost var before := SentencesOf(tokenize, language, chunks[..idx]);
        var newSentences;
        newSentences, seen := NewSentences(sentences, before, merged, seen);
        merged := merged + newSentences;
        SentencesOfSnoc(tokenize, language, chunks, idx);
      }
      assert chunks[..|chunks|] == chunks;
      finalText := Join(merged, " ");
    }

    /** `transform`: one backend call per chunk, in split order, the results collected in
        order and merged. The style defaults to "academic", as in the source; it comes last
        because Dafny lets only trailing parameters take a default. */
    method Transform(text: string, backends: Backends, tokenize: Tokenizer, style: string := "academic")
      returns (r: Result<string>)
      requires Valid()
      ensures r == TransformOf(AsSettings(), text, style, backends, tokenize)
    {
      var chunks := SplitWithOverlap(text, windowSize, overlapChars);
      var transformed: seq<string> := [];
      ghost var step := ChunkStep(AsSettings(), style, backends);
      for i := 0 to |chunks|
        invariant Collect(step, chunks[..i]) == Ok(transformed)
      {
        var prompt := BuildPrompt(lang, chunks[i], style);
        var result: string;
        if mode == LmStudioMode {
          result := LmStudioTransform(backends.lmStudio, modelName, prompt);
        } else if IsSubstring("hf", mode) || IsSubstring("/", modelName) {
          if mode != "hf" {
            CollectFail(step, chunks, i, transformed, ModelNotLoaded);
            return Err(ModelNotLoaded);
          }
          var reply := backends.hf(modelName, prompt);
          if reply.Err? {
            CollectFail(step, chunks, i, transformed, reply.error);
            return Err(reply.error);
          }
          result := reply.value;
        } else {
          CollectFail(step, chunks, i, transformed, NotImplemented);
          return Err(NotImplemented);
        }
        CollectExtend(step, chunks, i, transformed, result);
        transformed := transformed + [result];
      }
      assert chunks[..|chunks|] == chunks;
      var finalText := MergeChunks(transformed, tokenize);
      return Ok(finalText);
    }
  }
}
