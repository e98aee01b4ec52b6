/** The sentence-level merge rule of `merge_chunks`: sentences of the transformed chunks, in
    chunk order, stripped; empty ones and ones already emitted are dropped. */
module Merger {
  import opened Text

  /** NLTK's `sent_tokenize(text, language=...)`, left uninterpreted:
      (tokenizer language, text) -> sentences. */
  type Tokenizer = (string, string) -> seq<string>

  /** The tokenizer language: "turkish" for Turkish, "english" for every other language. */
  function TokenizerLanguage(lang: string): (language: string)
    ensures language == "turkish" <==> lang == "tr"
    ensures language == "turkish" || language == "english"
  {
    if lang == "tr" then "turkish" else "english"
  }

  /** Every sentence of every chunk, chunk by chunk, in chunk order. */
  function SentencesOf(tokenize: Tokenizer, language: string, chunks: seq<string>): seq<string> {
    if chunks == [] then []
    else SentencesOf(tokenize, language, chunks[..|chunks| - 1]) + tokenize(language, chunks[|chunks| - 1])
  }

  /** The stripped form of each sentence. */
  function StrippedAll(sentences: seq<string>): seq<string> {
    seq(|sentences|, k requires 0 <= k < |sentences| => Strip(sentences[k]))
  }

  function Elems<T>(s: seq<T>): set<T> {
    set x | x in s
  }

  /** The merge rule over a stream of cleaned sentences: a sentence is kept when it is
      non-empty and was not kept before. */
  function Dedup(cleaned: seq<string>): (kept: seq<string>) {
    if cleaned == [] then []
    else
      var prev := Dedup(cleaned[..|cleaned| - 1]);
      var s := cleaned[|cleaned| - 1];
      if s != [] && s !in prev then prev + [s] else prev
  }

  /** Everything kept is a non-empty input sentence, every non-empty input sentence is kept,
      and nothing is kept twice. */
  lemma {:induction false} DedupSpec(cleaned: seq<string>)
    ensures var kept := Dedup(cleaned);
            && (forall i | 0 <= i < |kept| :: kept[i] != [] && kept[i] in cleaned)
            && (forall k | 0 <= k < |cleaned| :: cleaned[k] != [] ==> cleaned[k] in kept)
            && (forall i, j | 0 <= i < j < |kept| :: kept[i] != kept[j])
  {
    if cleaned != [] {
      var init := cleaned[..|cleaned| - 1];
      DedupSpec(init);
      assert forall k | 0 <= k < |init| :: cleaned[k] == init[k];
    }
  }

  /** One more raw sentence: its stripped form is appended when non-empty and new. */
  lemma DedupStrippedSnoc(done: seq<string>, x: string)
    ensures var prev := Dedup(StrippedAll(done));
            var c := Strip(x);
            Dedup(StrippedAll(done + [x])) == if c != [] && c !in prev then prev + [c] else prev
  {
    assert StrippedAll(done + [x]) == StrippedAll(done) + [Strip(x)];
    assert (StrippedAll(done) + [Strip(x)])[..|done|] == StrippedAll(done);
  }

  /** One step of the merge loop: given the sentences kept so far and the set of them, one
      more raw sentence updates both as the merge rule says. */
  lemma MergeStep(done: seq<string>, x: string, kept: seq<string>, seen: set<string>)
    requires kept == Dedup(StrippedAll(done)) && seen == Elems(kept)
    ensures var c := Strip(x);
            var isNew := c != [] && c !in seen;
            && Dedup(StrippedAll(done + [x])) == (if isNew then kept + [c] else kept)
            && Elems(if isNew then kept + [c] else kept) == (if isNew then seen + {c} else seen)
  {
    DedupStrippedSnoc(done, x);
    assert forall y :: y in seen <==> y in kept;
  }

  lemma PrefixSnoc<T>(a: seq<T>, b: seq<T>, j: nat)
    requires j < |b|
    ensures a + b[..j + 1] == (a + b[..j]) + [b[j]]
  {
    assert b[..j + 1] == b[..j] + [b[j]];
  }

  lemma AppendOne<T>(a: seq<T>, b: seq<T>, x: T)
    ensures a + b + [x] == a + (b + [x])
  {
  }

  /** The inner loop of `merge_chunks` over one chunk's sentences: the sentences it adds and
      the updated `seen` set, for the sentences `before` merged so far. */
  method NewSentences(sentences: seq<string>, ghost before: seq<string>, merged: seq<string>, seen0: set<string>)
    returns (newSentences: seq<string>, seen: set<string>)
    requires merged == Dedup(StrippedAll(before)) && seen0 == Elems(merged)
    ensures merged + newSentences == Dedup(StrippedAll(before + sentences))
    ensures seen == Elems(merged + newSentences)
  {
    newSentences := [];
    seen := seen0;
    assert before + sentences[..0] == before;
    for j := 0 to |sentences|
      invariant merged + newSentences == Dedup(StrippedAll(before + sentences[..j]))
      invariant seen == Elems(merged + newSentences)
    {
      var cleaned := Strip(sentences[j]);
      MergeStep(before + sentences[..j], sentences[j], merged + newSentences, seen);
      PrefixSnoc(before, sentences, j);
      if cleaned != [] && cleaned !in seen {
        AppendOne(merged, newSentences, cleaned);
        newSentences := newSentences + [cleaned];
        seen := seen + {cleaned};
      }
    }
    assert sentences[..|sentences|] == sentences;
  }

  /** One more chunk: its sentences follow those of the chunks before it. */
  lemma SentencesOfSnoc(tokenize: Tokenizer, language: string, chunks: seq<string>, i: nat)
    requires i < |chunks|
    ensures SentencesOf(tokenize, language, chunks[..i + 1])
            == SentencesOf(tokenize, language, chunks[..i]) + tokenize(language, chunks[i])
  {
    assert chunks[..i + 1][..i] == chunks[..i];
  }

  /** The merge rule written front to back, with a `seen` set that starts out as given. */
  function FirstSeen(cleaned: seq<string>, seen: set<string>): seq<string> {
    if cleaned == [] then []
    else
      var s := cleaned[0];
      if s != [] && s !in seen then [s] + FirstSeen(cleaned[1..], seen + {s})
      else FirstSeen(cleaned[1..], seen)
  }

  /** Merging more sentences only appends: what was kept so far stays, followed by the new
      sentences that were not kept so far. */
  lemma {:induction false} DedupAppend(xs: seq<string>, ys: seq<string>)
    ensures Dedup(xs + ys) == Dedup(xs) + FirstSeen(ys, Elems(Dedup(xs)))
    decreases |ys|
  {
    if ys == [] {
      assert xs + ys == xs;
    } else {
      var s := ys[0];
      var xs' := xs + [s];
      assert xs'[..|xs'| - 1] == xs;
      DedupAppend(xs', ys[1..]);
      assert xs' + ys[1..] == xs + ys;
      if s != [] && s !in Elems(Dedup(xs)) {
        assert Elems(Dedup(xs')) == Elems(Dedup(xs)) + {s};
      } else {
        assert Dedup(xs') == Dedup(xs);
      }
    }
  }

  /** The two formulations of the merge rule agree. */
  lemma DedupIsFirstSeen(cleaned: seq<string>)
    ensures Dedup(cleaned) == FirstSeen(cleaned, {})
  {
    DedupAppend([], cleaned);
    assert [] + cleaned == cleaned;
    assert Elems(Dedup([])) == {};
  }

  /** Relative order of first occurrence is kept: a sentence seen at `i`, before the first
      occurrence `j` of another sentence, is emitted before that one. */
  lemma DedupFirstOccurrenceOrder(cleaned: seq<string>, i: nat, j: nat, p: nat, q: nat)
    requires i < j < |cleaned| && cleaned[i] != []
    requires forall l | 0 <= l < j :: cleaned[l] != cleaned[j]
    requires p < |Dedup(cleaned)| && Dedup(cleaned)[p] == cleaned[i]
    requires q < |Dedup(cleaned)| && Dedup(cleaned)[q] == cleaned[j]
    ensures p < q
  {
    var before := cleaned[..j];
    DedupSpec(cleaned);
    DedupSpec(before);
    DedupAppend(before, cleaned[j..]);
    assert before + cleaned[j..] == cleaned;
    var prefix := Dedup(before);
    assert prefix <= Dedup(cleaned);
    assert before[i] == cleaned[i];
    var p' :| 0 <= p' < |prefix| && prefix[p'] == cleaned[i];
    assert Dedup(cleaned)[p'] == Dedup(cleaned)[p];
    assert cleaned[j] !in before;
    assert forall k | 0 <= k < |prefix| :: prefix[k] != cleaned[j];
    assert |prefix| <= q;
  }

  /** Without empty or repeated sentences nothing is dropped. */
  lemma {:induction false} DedupDistinct(cleaned: seq<string>)
    requires forall k | 0 <= k < |cleaned| :: cleaned[k] != []
    requires forall k, l | 0 <= k < l < |cleaned| :: cleaned[k] != cleaned[l]
    ensures Dedup(cleaned) == cleaned
  {
    if cleaned != [] {
      var init := cleaned[..|cleaned| - 1];
      DedupDistinct(init);
      assert cleaned == init + [cleaned[|cleaned| - 1]];
    }
  }

  /** The sentences `merge_chunks` keeps for given chunks. */
  function MergedSentences(lang: string, chunks: seq<string>, tokenize: Tokenizer): seq<string> {
    Dedup(StrippedAll(SentencesOf(tokenize, TokenizerLanguage(lang), chunks)))
  }

  /** `merge_chunks`'s result for given chunks: the kept sentences joined with one space. */
  function MergeOf(lang: string, chunks: seq<string>, tokenize: Tokenizer): string {
    Join(MergedSentences(lang, chunks, tokenize), " ")
  }

  /** The sentences of chunk `c` sit, in order, right after those of the chunks before it. */
  lemma {:induction false} SentencesOfChunk(tokenize: Tokenizer, language: string, chunks: seq<string>, c: nat)
    requires c < |chunks|
    ensures var all := SentencesOf(tokenize, language, chunks);
            var off := |SentencesOf(tokenize, language, chunks[..c])|;
            var mine := tokenize(language, chunks[c]);
            off + |mine| <= |all| && all[off..off + |mine|] == mine
  {
    var init := chunks[..|chunks| - 1];
    var before := SentencesOf(tokenize, language, init);
    var mine := tokenize(language, chunks[c]);
    if c == |chunks| - 1 {
      assert init == chunks[..c];
    } else {
      assert init[c] == chunks[c] && init[..c] == chunks[..c];
      SentencesOfChunk(tokenize, language, init, c);
    }
  }

  /** Every non-empty stripped sentence of every chunk is in the merged output. */
  lemma MergeKeepsEverySentence(lang: string, chunks: seq<string>, tokenize: Tokenizer, c: nat, k: nat)
    requires c < |chunks| && k < |tokenize(TokenizerLanguage(lang), chunks[c])|
    requires Strip(tokenize(TokenizerLanguage(lang), chunks[c])[k]) != []
    ensures Strip(tokenize(TokenizerLanguage(lang), chunks[c])[k]) in MergedSentences(lang, chunks, tokenize)
  {
    var language := TokenizerLanguage(lang);
    var all := SentencesOf(tokenize, language, chunks);
    var mine := tokenize(language, chunks[c]);
    SentencesOfChunk(tokenize, language, chunks, c);
    var off := |SentencesOf(tokenize, language, chunks[..c])|;
    assert all[off + k] == mine[k];
    assert StrippedAll(all)[off + k] == Strip(mine[k]);
    DedupSpec(StrippedAll(all));
  }

  /** A sentence that two chunks share (as happens in the overlap) is merged exactly once. */
  lemma SharedSentenceMergedOnce(lang: string, chunks: seq<string>, tokenize: Tokenizer,
                                 a: nat, ka: nat, b: nat, kb: nat)
    requires a < b < |chunks|
    requires ka < |tokenize(TokenizerLanguage(lang), chunks[a])|
    requires kb < |tokenize(TokenizerLanguage(lang), chunks[b])|
    requires Strip(tokenize(TokenizerLanguage(lang), chunks[a])[ka])
             == Strip(tokenize(TokenizerLanguage(lang), chunks[b])[kb]) != []
    ensures var s := Strip(tokenize(TokenizerLanguage(lang), chunks[a])[ka]);
            var merged := MergedSentences(lang, chunks, tokenize);
            && s in merged
            && forall p, q | 0 <= p < |merged| && 0 <= q < |merged| && merged[p] == s == merged[q] :: p == q
  {
    MergeKeepsEverySentence(lang, chunks, tokenize, a, ka);
    DedupSpec(StrippedAll(SentencesOf(tokenize, TokenizerLanguage(lang), chunks)));
  }

  /** Chunks whose sentences are all the same single, already stripped sentence keep it once. */
  lemma {:induction false} RepeatedSentenceKeptOnce(tokenize: Tokenizer, language: string, chunks: seq<string>, x: string)
    requires |chunks| >= 1 && forall k | 0 <= k < |chunks| :: chunks[k] == x
    requires tokenize(language, x) == [x] && x != [] && Strip(x) == x
    ensures Dedup(StrippedAll(SentencesOf(tokenize, language, chunks))) == [x]
  {
    var init := chunks[..|chunks| - 1];
    var all := SentencesOf(tokenize, language, chunks);
    assert StrippedAll(all) == StrippedAll(SentencesOf(tokenize, language, init)) + [x];
    if init == [] {
      assert StrippedAll(all) == [x];
      assert Dedup([x]) == Dedup([]) + [x] by {
        assert [x][..0] == [];
      }
    } else {
      RepeatedSentenceKeptOnce(tokenize, language, init, x);
      assert StrippedAll(all)[..|StrippedAll(all)| - 1] == StrippedAll(SentencesOf(tokenize, language, init));
    }
  }

  /** Chunks that all hold the same single, already stripped sentence merge to that sentence:
      the repeats are dropped. */
  lemma MergeOfRepeated(lang: string, chunks: seq<string>, tokenize: Tokenizer, x: string)
    requires |chunks| >= 1 && forall k | 0 <= k < |chunks| :: chunks[k] == x
    requires tokenize(TokenizerLanguage(lang), x) == [x] && x != [] && IsStripped(x)
    ensures MergedSentences(lang, chunks, tokenize) == [x]
    ensures MergeOf(lang, chunks, tokenize) == x
  {
    StripOfStripped(x);
    RepeatedSentenceKeptOnce(tokenize, TokenizerLanguage(lang), chunks, x);
  }

  /** No chunks, no text. */
  lemma MergeOfNoChunks(lang: string, tokenize: Tokenizer)
    ensures MergedSentences(lang, [], tokenize) == [] && MergeOf(lang, [], tokenize) == ""
  {
  }
}
