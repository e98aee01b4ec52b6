/** Context budget: model name -> token limit -> window size and overlap, in characters. */
module ContextBudget {
  import opened Text

  /** Limit used when no table key matches the model name. */
  const DefaultContextTokens: nat := 4096

  /** The characters-per-token heuristic (`self.chars_per_token`). */
  const CharsPerToken: nat := 3

  /** MODEL_CONTEXT_LIMITS in its insertion order, which is the order Python iterates it in. */
  const ModelContextLimits: seq<(string, nat)> := [
    ("mistral-7b", 4096),
    ("llama-3-8b", 8192),
    ("llama-3-70b", 8192),
    ("mixtral-8x7b", 8192),
    ("gpt-3.5", 4096),
    ("gpt-4", 128000),
    ("claude-3-opus", 200000),
    ("command-r", 32768),
    ("phi-2", 2048),
    ("gemma-7b", 8192)
  ]

  /** The early-return scan of the table: the limit of the first key that occurs in `name`,
      or the default when none does. */
  function LookupLimit(table: seq<(string, nat)>, name: string): (tokens: nat)
    ensures tokens == DefaultContextTokens || exists i | 0 <= i < |table| :: table[i].1 == tokens
  {
    if table == [] then DefaultContextTokens
    else if IsSubstring(table[0].0, name) then table[0].1
    else
      var rest := LookupLimit(table[1..], name);
      assert rest != DefaultContextTokens ==> exists i | 0 <= i < |table[1..]| :: table[1..][i].1 == rest;
      assert forall i | 0 <= i < |table[1..]| :: table[1..][i] == table[i + 1];
      rest
  }

  /** `get_model_context_length`: the name is lower-cased before the scan. */
  function ContextLength(modelName: string): (tokens: nat)
    ensures tokens >= 1
    ensures tokens == DefaultContextTokens
            || exists i | 0 <= i < |ModelContextLimits| :: ModelContextLimits[i].1 == tokens
  {
    LookupLimit(ModelContextLimits, Lower(modelName))
  }

  /** The first key in table order that occurs in the name decides the limit. */
  lemma {:induction false} LookupFirstMatch(table: seq<(string, nat)>, name: string, i: nat)
    requires i < |table| && IsSubstring(table[i].0, name)
    requires forall j | 0 <= j < i :: !IsSubstring(table[j].0, name)
    ensures LookupLimit(table, name) == table[i].1
  {
    if i > 0 {
      assert !IsSubstring(table[0].0, name);
      LookupFirstMatch(table[1..], name, i - 1);
    }
  }

  /** When no key occurs in the name, the default limit is returned. */
  lemma {:induction false} LookupNoMatch(table: seq<(string, nat)>, name: string)
    requires forall j | 0 <= j < |table| :: !IsSubstring(table[j].0, name)
    ensures LookupLimit(table, name) == DefaultContextTokens
  {
    if table != [] {
      assert !IsSubstring(table[0].0, name);
      LookupNoMatch(table[1..], name);
    }
  }

  /** Every key is written in lower case, so it can match the lowercased name whatever the
      case of the name as given. */
  lemma KeysAreLowercase()
    ensures forall j | 0 <= j < |ModelContextLimits| :: Lower(ModelContextLimits[j].0) == ModelContextLimits[j].0
  {
    forall j | 0 <= j < |ModelContextLimits|
      ensures Lower(ModelContextLimits[j].0) == ModelContextLimits[j].0
    {
      LowerOfLower(ModelContextLimits[j].0);
    }
  }

  /** `window_size = context_tokens * chars_per_token`. */
  function WindowSize(tokens: nat): nat {
    tokens * CharsPerToken
  }

  /** `int(window_size * 0.2)`. For every window the table can produce the double product
      rounds to within half a unit of window/5, so truncation gives the floor of window/5. */
  function OverlapChars(window: nat): (overlap: nat)
    ensures 5 * overlap <= window < 5 * overlap + 5
    ensures window > 0 ==> overlap < window
  {
    window / 5
  }

  /** Every budget the table or the default can produce leaves a positive step between
      window starts. */
  lemma BudgetStepPositive(modelName: string)
    ensures var w := WindowSize(ContextLength(modelName));
            0 <= OverlapChars(w) < w && w - OverlapChars(w) >= 1
            && 2 * OverlapChars(w) <= w
  {
  }

  /** A model name matching no key gets 4096 tokens, a 12288-character window and a
      2457-character overlap. */
  lemma UnknownModelBudget(modelName: string)
    requires forall j | 0 <= j < |ModelContextLimits| :: !IsSubstring(ModelContextLimits[j].0, Lower(modelName))
    ensures ContextLength(modelName) == 4096
    ensures WindowSize(ContextLength(modelName)) == 12288
    ensures OverlapChars(WindowSize(ContextLength(modelName))) == 2457
  {
    LookupNoMatch(ModelContextLimits, Lower(modelName));
  }

  /** For each key of the table, in table order, one character the key holds: a digit, or
      the 'r' of "command-r". A name that has none of these characters contains no key. */
  const KeyMarks: string := [
    '7',  // mistral-7b
    '3',  // llama-3-8b
    '3',  // llama-3-70b
    '8',  // mixtral-8x7b
    '3',  // gpt-3.5
    '4',  // gpt-4
    '3',  // claude-3-opus
    'r',  // command-r
    '2',  // phi-2
    '7'   // gemma-7b
  ]

  /** Every key of the table holds its mark, so every key holds a digit or an 'r'. */
  lemma KeysMarked()
    ensures |KeyMarks| == |ModelContextLimits|
    ensures forall j | 0 <= j < |ModelContextLimits| :: KeyMarks[j] in ModelContextLimits[j].0
  {
  }

  /** The name holds no digit, no 'r' and no 'R', so it holds no key's mark even after
      lowercasing. */
  predicate NoKeyMark(name: string)
  {
    forall i :: 0 <= i < |name| ==> !('0' <= name[i] <= '9') && name[i] != 'r' && name[i] != 'R'
  }

  /** A name with neither digits nor the letter r (such as the constructor's default,
      "local-model") is unknown to the table and gets the default budget. */
  lemma UnmarkedNameIsUnknown(name: string)
    requires NoKeyMark(name)
    ensures ContextLength(name) == DefaultContextTokens
  {
    var low := Lower(name);
    KeysMarked();
    forall j | 0 <= j < |ModelContextLimits|
      ensures !IsSubstring(ModelContextLimits[j].0, low)
    {
      var c := KeyMarks[j];
      assert c in "0123456789r";
      if IsSubstring(ModelContextLimits[j].0, low) {
        SubstringChars(ModelContextLimits[j].0, low, c);
      }
    }
    LookupNoMatch(ModelContextLimits, low);
  }

  lemma DefaultModelIsUnknown(name: string)
    requires name == "local-model"
    ensures ContextLength(name) == DefaultContextTokens
  {
    UnmarkedNameIsUnknown(name);
  }
}
