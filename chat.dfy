/**
 * `chatbot`: the prompt sent to the language model and the reply shown for it. The model
 * itself is a parameter `generate`, which yields `None` where the call raises.
 */
module Chat {
  import opened Wrappers

  const ContextLabel := "Context: "
  const QuestionLabel := "\n\nQuestion: "

  /** What the template puts after the question: a blank line, its indentation, the instruction. */
  const Instruction := "\n\n            Please answer the question based on the provided context. If the question cannot be answered from the context, please say so."

  /** Shown in place of a reply when the model call fails. */
  const Apology := "Sorry, I couldn't process that. Please try again."

  /** The prompt: the raw input, or the input framed by a truthy context in the fixed template. */
  function BuildPrompt(input: string, context: Option<string>): (prompt: string)
    ensures Truthy(context) ==> prompt == ContextLabel + context.value + QuestionLabel + input + Instruction
    ensures !Truthy(context) ==> prompt == input
  {
    if Truthy(context) then ContextLabel + context.value + QuestionLabel + input + Instruction
    else input
  }

  /** The prompt is the input itself exactly when there is no usable context. */
  lemma PromptIsInputIff(input: string, context: Option<string>)
    ensures BuildPrompt(input, context) == input <==> !Truthy(context)
  {
  }

  /** With a context, the prompt opens with the context and carries the question verbatim. */
  lemma PromptCarries(input: string, context: string)
    requires context != ""
    ensures var prompt := BuildPrompt(input, Some(context));
      && prompt[..|ContextLabel| + |context|] == ContextLabel + context
      && prompt[|ContextLabel| + |context| + |QuestionLabel|..][..|input|] == input
      && prompt[|prompt| - |Instruction|..] == Instruction
  {
  }

  /** `chatbot(input, context)`: the model's text for the prompt, or the apology when the call fails. */
  function Chatbot(input: string, context: Option<string>, generate: string -> Option<string>): (reply: string)
    ensures generate(BuildPrompt(input, context)).Some? ==> reply == generate(BuildPrompt(input, context)).value
    ensures generate(BuildPrompt(input, context)).None? ==> reply == Apology
  {
    match generate(BuildPrompt(input, context))
    case Some(text) => text
    case None => Apology
  }
}
