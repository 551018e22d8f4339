/**
 * `build_system_prompt` (src/rag.py:72-129): a fixed instruction template
 * with the corpus substituted verbatim after its closing `Contesto:` line.
 */
module Prompt {

  /**
   * The fixed Italian instruction text that opens the template (persona, safety
   * policy, style, formatting and citation rules). Its wording is not modelled:
   * it is a constant whose value no property here depends on.
   */
  const Instructions: string

  /** Everything the template puts before the corpus. */
  const Prefix: string := Instructions + "Contesto: \n    "

  function BuildSystemPrompt(combinedDocs: string): (prompt: string)
    ensures |prompt| == |Prefix| + |combinedDocs| + 1
    ensures prompt[..|Prefix|] == Prefix
    ensures prompt[|Prefix|..|Prefix| + |combinedDocs|] == combinedDocs
    ensures prompt[|prompt| - 1] == '\n'
  {
    Prefix + combinedDocs + "\n"
  }

  /** The corpus can be read back from the prompt, so different corpora give different prompts. */
  lemma BuildSystemPromptInjective(docs1: string, docs2: string)
    requires BuildSystemPrompt(docs1) == BuildSystemPrompt(docs2)
    ensures docs1 == docs2
  {
    var p := BuildSystemPrompt(docs1);
    assert docs1 == p[|Prefix|..|p| - 1];
  }
}
