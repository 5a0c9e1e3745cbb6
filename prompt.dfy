/**
 * The analysis prompt of the language-model service (_build_analysis_prompt):
 * fixed instructions followed by the text to analyse. The instructions are
 * kept in a module of their own because the long literal is costly for the
 * verifier in every proof that can see it.
 */
module AnalysisPrompt {
  import opened Wrappers

  /** The fixed instructions that precede the text to analyse. */
  const PromptPrefix: string :=
    "You are an AI expert in knowledge management, " +
    "specifically the Zettelkasten and atomic note-taking " +
    "method. Your task is to analyze the following text from " +
    "the book \"A Random Walk Down Wall Street\".\n" +
    "\n" +
    "Perform the following actions:\n" +
    "\n" +
    "1. Read the text and identify all distinct, core " +
    "financial concepts, theories, or key terms.\n" +
    "2. For each concept, write a concise, self-contained " +
    "summary (an \"atomic note\").\n" +
    "3. Within each summary, identify where other concepts " +
    "you've found are mentioned and wrap their exact names " +
    "in [[wikilinks]].\n" +
    "4. Return the output as a single JSON array of objects, " +
    "where each object represents a single atomic note and " +
    "has three keys: \"title\", \"summary\", and \"tags\".\n" +
    "\n" +
    "Example JSON Output:\n" +
    "[\n" +
    "  {\n" +
    "    \"title\": \"Random Walk Theory\",\n" +
    "    \"summary\": \"The Random Walk Theory posits that " +
    "stock market prices evolve according to a random walk " +
    "and thus cannot be predicted. This idea is a " +
    "cornerstone of the [[Efficient Market Hypothesis]] and " +
    "challenges the effectiveness of [[Technical " +
    "Analysis]].\",\n" +
    "    \"tags\": [\"market-theory\", \"stock-prices\"]\n" +
    "  },\n" +
    "  {\n" +
    "    \"title\": \"Efficient Market Hypothesis\",\n" +
    "    \"summary\": \"The Efficient Market Hypothesis (EMH) " +
    "asserts that financial markets are 'informationally " +
    "efficient,' meaning prices fully reflect all available " +
    "information. This theory is built upon the [[Random " +
    "Walk Theory]].\",\n" +
    "    \"tags\": [\"market-efficiency\", \"investment-theory\"]\n" +
    "  }\n" +
    "]\n" +
    "\n" +
    "Guidelines:\n" +
    "- Each note should be self-contained and understandable " +
    "on its own\n" +
    "- Use [[wikilinks]] to connect related concepts within " +
    "summaries\n" +
    "- Tags should be lowercase and use hyphens instead of " +
    "spaces\n" +
    "- Focus on the most important and distinct concepts\n" +
    "- Avoid creating notes for very basic or common terms " +
    "unless they're specifically defined in the text\n" +
    "- Keep summaries concise but informative (2-4 " +
    "sentences)\n" +
    "\n" +
    "Now, analyze this text:\n" +
    "\n"

  /** _build_analysis_prompt. */
  function BuildAnalysisPrompt(textChunk: string): (prompt: string)
  {
    PromptPrefix + textChunk
  }

  /** The inverse of BuildAnalysisPrompt: the text a prompt was built from. */
  function TextOfPrompt(prompt: string): (r: Option<string>)
  {
    WithoutPrefix(PromptPrefix, prompt)
  }

  /** `s` with `prefix` removed from its front, or None when `s` does not start with it. */
  function WithoutPrefix(prefix: string, s: string): (r: Option<string>)
    ensures r.Some? <==> |prefix| <= |s| && s[..|prefix|] == prefix
    ensures r.Some? ==> prefix + r.value == s
  {
    if |prefix| <= |s| && s[..|prefix|] == prefix then Some(s[|prefix|..]) else None
  }

  predicate EndsWith(s: string, suffix: string)
  {
    |suffix| <= |s| && s[|s| - |suffix|..] == suffix
  }

  lemma WithoutPrefixOfConcat(prefix: string, t: string)
    ensures WithoutPrefix(prefix, prefix + t) == Some(t)
    ensures EndsWith(prefix + t, t)
  {
    assert (prefix + t)[..|prefix|] == prefix && (prefix + t)[|prefix|..] == t;
  }

  /** The text can be read back from the prompt built from it. */
  lemma PromptRoundTrip(textChunk: string)
    ensures TextOfPrompt(BuildAnalysisPrompt(textChunk)) == Some(textChunk)
  {
    WithoutPrefixOfConcat(PromptPrefix, textChunk);
  }

  /** The prompt always ends with the text. */
  lemma PromptEndsWithText(textChunk: string)
    ensures EndsWith(BuildAnalysisPrompt(textChunk), textChunk)
  {
    WithoutPrefixOfConcat(PromptPrefix, textChunk);
  }

  /** What precedes the text does not depend on the text: it is the prompt of
      the empty text. */
  lemma PromptPrefixFixed(textChunk: string)
    ensures BuildAnalysisPrompt(textChunk) == BuildAnalysisPrompt([]) + textChunk
  {
    assert PromptPrefix + [] == PromptPrefix;
  }

  /** Different texts give different prompts. */
  lemma PromptInjective(textChunk: string, other: string)
    ensures BuildAnalysisPrompt(textChunk) == BuildAnalysisPrompt(other) ==> textChunk == other
  {
    PromptRoundTrip(textChunk);
    PromptRoundTrip(other);
  }
}
